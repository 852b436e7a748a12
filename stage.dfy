/** One mapping table of the seed almanac, as the `RangeMap<i64, i64>` it is stored in:
    rules `[start, end) -> offset`, kept sorted by start, non-empty and pairwise disjoint.
    Scalar lookup (`get`), the overlap query (`overlapping`) and the uncovered parts of a
    query range (`gaps`) are modelled here, together with the per-table step of range mode
    and the facts that tie range mode to scalar mode. */
module Day5Stage {
  import opened Wrappers

  /** A half-open range `start..end`. */
  datatype Range = Range(start: int, end: int)

  predicate In(v: int, r: Range) {
    r.start <= v < r.end
  }

  predicate NonEmpty(r: Range) {
    r.start < r.end
  }

  predicate Overlaps(a: Range, b: Range) {
    a.start < b.end && b.start < a.end
  }

  /** A table line "dest src len" becomes `src..src+len` with offset `dest - src`. */
  datatype Rule = Rule(src: Range, offset: int)

  /** The shape a `RangeMap` keeps: ascending by start, every range non-empty, no overlap. */
  predicate Valid(stage: seq<Rule>) {
    && (forall i :: 0 <= i < |stage| ==> NonEmpty(stage[i].src))
    && (forall i, j :: 0 <= i < j < |stage| ==> stage[i].src.end <= stage[j].src.start)
  }

  lemma SameValueSameRule(stage: seq<Rule>, a: Rule, b: Rule, v: int)
    requires Valid(stage) && a in stage && b in stage
    requires In(v, a.src) && In(v, b.src)
    ensures a == b
  {
    var i :| 0 <= i < |stage| && stage[i] == a;
    var j :| 0 <= j < |stage| && stage[j] == b;
    ValidUnique(stage, i, j, v);
  }

  // ---------------------------------------------------------------- construction

  lemma HeadBelowRest(stage: seq<Rule>)
    requires Valid(stage) && stage != []
    ensures Valid(stage[1..])
    ensures forall y :: y in stage[1..] ==> stage[0].src.end <= y.src.start
  {
    forall y | y in stage[1..] ensures stage[0].src.end <= y.src.start {
      var i :| 0 <= i < |stage[1..]| && stage[1..][i] == y;
      assert stage[0].src.end <= stage[i + 1].src.start;
    }
  }

  lemma ValidCons(x: Rule, rest: seq<Rule>)
    requires Valid(rest) && NonEmpty(x.src)
    requires forall y :: y in rest ==> x.src.end <= y.src.start
    ensures Valid([x] + rest)
  {
    var s := [x] + rest;
    forall i, j | 0 <= i < j < |s| ensures s[i].src.end <= s[j].src.start {
      if i == 0 {
        assert s[j] == rest[j - 1];
        assert s[j] in rest;
      } else {
        assert s[i] == rest[i - 1] && s[j] == rest[j - 1];
      }
    }
  }

  /** The parts of the stored rules that lie below `cut`, each keeping its offset. */
  function Below(stage: seq<Rule>, cut: int): seq<Rule>
    requires Valid(stage)
  {
    if stage == [] then []
    else
      HeadBelowRest(stage);
      var x := stage[0];
      var rest := Below(stage[1..], cut);
      if x.src.start < cut then
        var hi := if x.src.end < cut then x.src.end else cut;
        [Rule(Range(x.src.start, hi), x.offset)] + rest
      else rest
  }

  /** What is kept below the cut is itself a valid table, entirely below the cut, and starts
      no earlier than the first stored rule. */
  lemma {:induction false} BelowSpec(stage: seq<Rule>, cut: int)
    requires Valid(stage)
    ensures Valid(Below(stage, cut))
    ensures forall x :: x in Below(stage, cut) ==> x.src.end <= cut
    ensures stage != [] ==> forall x :: x in Below(stage, cut) ==> stage[0].src.start <= x.src.start
    decreases |stage|
  {
    if stage != [] {
      HeadBelowRest(stage);
      BelowSpec(stage[1..], cut);
      var x := stage[0];
      var rest := Below(stage[1..], cut);
      if x.src.start < cut {
        var hi := if x.src.end < cut then x.src.end else cut;
        var piece := Rule(Range(x.src.start, hi), x.offset);
        assert forall y :: y in rest ==> piece.src.end <= y.src.start by {
          if stage[1..] != [] {
            assert stage[1..][0] in stage[1..];
          }
        }
        ValidCons(piece, rest);
      }
    }
  }

  /** The parts of the stored rules that lie at or above `cut`, each keeping its offset. */
  function Above(stage: seq<Rule>, cut: int): seq<Rule>
    requires Valid(stage)
  {
    if stage == [] then []
    else
      HeadBelowRest(stage);
      var x := stage[0];
      var rest := Above(stage[1..], cut);
      if cut < x.src.end then
        var lo := if x.src.start < cut then cut else x.src.start;
        [Rule(Range(lo, x.src.end), x.offset)] + rest
      else rest
  }

  /** What is kept above the cut is itself a valid table, entirely at or above the cut, and
      starts no earlier than the first stored rule. */
  lemma {:induction false} AboveSpec(stage: seq<Rule>, cut: int)
    requires Valid(stage)
    ensures Valid(Above(stage, cut))
    ensures forall x :: x in Above(stage, cut) ==> cut <= x.src.start
    ensures stage != [] ==> forall x :: x in Above(stage, cut) ==> stage[0].src.start <= x.src.start
    decreases |stage|
  {
    if stage != [] {
      HeadBelowRest(stage);
      AboveSpec(stage[1..], cut);
      var x := stage[0];
      var rest := Above(stage[1..], cut);
      if cut < x.src.end {
        var lo := if x.src.start < cut then cut else x.src.start;
        var piece := Rule(Range(lo, x.src.end), x.offset);
        assert forall y :: y in rest ==> piece.src.end <= y.src.start by {
          if stage[1..] != [] {
            assert stage[1..][0] in stage[1..];
          }
        }
        ValidCons(piece, rest);
      }
    }
  }

  lemma ValidAppend(a: seq<Rule>, b: seq<Rule>)
    requires Valid(a) && Valid(b)
    requires forall x, y :: x in a && y in b ==> x.src.end <= y.src.start
    ensures Valid(a + b)
  {
    var s := a + b;
    forall i, j | 0 <= i < j < |s| ensures s[i].src.end <= s[j].src.start {
      if j < |a| {
        assert s[i] == a[i] && s[j] == a[j];
      } else if i >= |a| {
        assert s[i] == b[i - |a|] && s[j] == b[j - |a|];
      } else {
        assert s[i] == a[i] && s[j] == b[j - |a|];
        assert s[i] in a && s[j] in b;
      }
    }
  }

  /** `RangeMap::insert`: the new rule replaces whatever part of the stored rules it covers;
      the parts of older rules on either side of it stay with their offsets. */
  function Insert(stage: seq<Rule>, rule: Rule): (r: seq<Rule>)
    requires Valid(stage) && NonEmpty(rule.src)
    ensures Valid(r)
    ensures rule in r
  {
    var lo := Below(stage, rule.src.start);
    var hi := Above(stage, rule.src.end);
    BelowSpec(stage, rule.src.start);
    AboveSpec(stage, rule.src.end);
    ValidCons(rule, hi);
    ValidAppend(lo, [rule] + hi);
    lo + [rule] + hi
  }

  /** Lookup in a concatenation: the first part that answers wins. */
  lemma {:induction false} GetAppend(a: seq<Rule>, b: seq<Rule>, v: int)
    ensures Get(a + b, v) == if Get(a, v).Some? then Get(a, v) else Get(b, v)
  {
    if a != [] {
      assert (a + b)[0] == a[0] && (a + b)[1..] == a[1..] + b;
      GetAppend(a[1..], b, v);
    } else {
      assert a + b == b;
    }
  }

  lemma {:induction false} GetBelow(stage: seq<Rule>, cut: int, v: int)
    requires Valid(stage)
    ensures Get(Below(stage, cut), v) == if v < cut then Get(stage, v) else None
    decreases |stage|
  {
    if stage != [] {
      HeadBelowRest(stage);
      GetBelow(stage[1..], cut, v);
      var x := stage[0];
      if x.src.start < cut {
        var hi := if x.src.end < cut then x.src.end else cut;
        var piece := Rule(Range(x.src.start, hi), x.offset);
        GetAppend([piece], Below(stage[1..], cut), v);
      }
    }
  }

  lemma {:induction false} GetAbove(stage: seq<Rule>, cut: int, v: int)
    requires Valid(stage)
    ensures Get(Above(stage, cut), v) == if cut <= v then Get(stage, v) else None
    decreases |stage|
  {
    if stage != [] {
      HeadBelowRest(stage);
      GetAbove(stage[1..], cut, v);
      var x := stage[0];
      if cut < x.src.end {
        var lo := if x.src.start < cut then cut else x.src.start;
        var piece := Rule(Range(lo, x.src.end), x.offset);
        GetAppend([piece], Above(stage[1..], cut), v);
      }
    }
  }

  /** The lookup `RangeMap` promises after an insert: inside the new range the new offset,
      elsewhere whatever was there before (the last write wins). */
  lemma InsertGet(stage: seq<Rule>, rule: Rule, v: int)
    requires Valid(stage) && NonEmpty(rule.src)
    ensures Get(Insert(stage, rule), v) ==
      if In(v, rule.src) then Some(rule.offset) else Get(stage, v)
  {
    var lo := Below(stage, rule.src.start);
    var hi := Above(stage, rule.src.end);
    assert Insert(stage, rule) == lo + ([rule] + hi);
    GetAppend(lo, [rule] + hi, v);
    GetAppend([rule], hi, v);
    GetBelow(stage, rule.src.start, v);
    GetAbove(stage, rule.src.end, v);
  }

  // ---------------------------------------------------------------- scalar mode

  /** `RangeMap::get`: the offset of the rule whose range holds `v`, if any. */
  function Get(stage: seq<Rule>, v: int): (r: Option<int>)
    ensures r.Some? <==> exists rule :: rule in stage && In(v, rule.src)
    ensures r.Some? ==> exists rule :: rule in stage && In(v, rule.src) && rule.offset == r.value
  {
    if stage == [] then None
    else if In(v, stage[0].src) then Some(stage[0].offset)
    else
      assert forall rule :: rule in stage[1..] ==> rule in stage;
      assert forall rule :: rule in stage && rule != stage[0] ==> rule in stage[1..];
      Get(stage[1..], v)
  }

  /** One stage of scalar mode: `seed + range.get(&seed).unwrap_or(&0)`. */
  function MapValue(stage: seq<Rule>, v: int): int {
    v + Get(stage, v).GetOr(0)
  }

  /** A value inside a rule moves by that rule's offset; a value outside every rule stays. */
  lemma MapValueSpec(stage: seq<Rule>, v: int)
    requires Valid(stage)
    ensures forall rule :: rule in stage && In(v, rule.src) ==>
      Get(stage, v) == Some(rule.offset) && MapValue(stage, v) == v + rule.offset
    ensures (forall rule :: rule in stage ==> !In(v, rule.src)) ==>
      Get(stage, v) == None && MapValue(stage, v) == v
  {
    forall rule | rule in stage && In(v, rule.src)
      ensures Get(stage, v) == Some(rule.offset)
    {
      var other :| other in stage && In(v, other.src) && other.offset == Get(stage, v).value;
      SameValueSameRule(stage, rule, other, v);
    }
  }

  // ---------------------------------------------------------------- range queries

  /** `RangeMap::overlapping`: the stored rules whose range meets `q`, in ascending order. */
  function Overlapping(stage: seq<Rule>, q: Range): (r: seq<Rule>)
    ensures forall rule :: rule in r <==> rule in stage && Overlaps(rule.src, q)
  {
    if stage == [] then []
    else
      var rest := Overlapping(stage[1..], q);
      assert forall rule :: rule in stage <==> rule == stage[0] || rule in stage[1..];
      if Overlaps(stage[0].src, q) then [stage[0]] + rest else rest
  }

  /** The overlaps keep the table's order and disjointness. */
  lemma {:induction false} OverlappingValid(stage: seq<Rule>, q: Range)
    requires Valid(stage)
    ensures Valid(Overlapping(stage, q))
    decreases |stage|
  {
    if stage != [] {
      HeadBelowRest(stage);
      OverlappingValid(stage[1..], q);
      if Overlaps(stage[0].src, q) {
        ValidCons(stage[0], Overlapping(stage[1..], q));
      }
    }
  }

  /** The clipped intersection of a rule's range with `q`, moved by the rule's offset. */
  function Piece(rule: Rule, q: Range): Range {
    var lo := if rule.src.start < q.start then q.start else rule.src.start;
    var hi := if rule.src.end < q.end then rule.src.end else q.end;
    Range(lo + rule.offset, hi + rule.offset)
  }

  /** The same intersection before the offset is applied. */
  function Clip(rule: Rule, q: Range): Range {
    var lo := if rule.src.start < q.start then q.start else rule.src.start;
    var hi := if rule.src.end < q.end then rule.src.end else q.end;
    Range(lo, hi)
  }

  lemma ClipSpec(rule: Rule, q: Range, v: int)
    ensures In(v, Clip(rule, q)) <==> In(v, rule.src) && In(v, q)
    ensures In(v, Clip(rule, q)) <==> In(v + rule.offset, Piece(rule, q))
  {
  }

  /** The pieces one input range contributes through the rules it overlaps. */
  function Shifted(stage: seq<Rule>, q: Range): (r: seq<Range>)
    ensures |r| == |Overlapping(stage, q)|
    ensures forall k :: 0 <= k < |r| ==> r[k] == Piece(Overlapping(stage, q)[k], q)
  {
    var rules := Overlapping(stage, q);
    seq(|rules|, k requires 0 <= k < |rules| => Piece(rules[k], q))
  }

  /** `RangeMap::gaps`: walk the stored ranges in order with a cursor starting at `q.start`,
      yielding each stretch between the cursor and the next stored range that begins
      before `q.end`, and finally the stretch from the cursor to `q.end`. */
  function GapsFrom(stage: seq<Rule>, q: Range, cursor: int): seq<Range>
  {
    if stage == [] then
      if cursor < q.end then [Range(cursor, q.end)] else []
    else
      var r := stage[0].src;
      if r.end <= cursor then GapsFrom(stage[1..], q, cursor)
      else if r.start <= cursor then GapsFrom(stage[1..], q, r.end)
      else if r.start < q.end then [Range(cursor, r.start)] + GapsFrom(stage[1..], q, r.end)
      else GapsFrom(stage[1..], q, cursor)
  }

  /** Ranges in strictly increasing order, each ending before the next begins. */
  predicate Ascending(rs: seq<Range>) {
    forall i, j :: 0 <= i < j < |rs| ==> rs[i].end <= rs[j].start
  }

  function Gaps(stage: seq<Rule>, q: Range): seq<Range> {
    GapsFrom(stage, q, q.start)
  }

  /** Every gap is a non-empty part of `[cursor, q.end)` that no rule touches. */
  lemma {:induction false} GapsFromSound(stage: seq<Rule>, q: Range, cursor: int)
    requires Valid(stage)
    ensures forall g :: g in GapsFrom(stage, q, cursor) ==>
      NonEmpty(g) && cursor <= g.start && g.end <= q.end &&
      forall rule :: rule in stage ==> !Overlaps(rule.src, g)
  {
    if stage != [] {
      var r := stage[0].src;
      var rest := stage[1..];
      HeadBelowRest(stage);
      assert forall rule :: rule in stage <==> rule == stage[0] || rule in rest;
      if r.end <= cursor {
        GapsFromSound(rest, q, cursor);
      } else if r.start <= cursor {
        GapsFromSound(rest, q, r.end);
      } else if r.start < q.end {
        GapsFromSound(rest, q, r.end);
        assert GapsFrom(stage, q, cursor) == [Range(cursor, r.start)] + GapsFrom(rest, q, r.end);
      } else {
        GapsFromSound(rest, q, cursor);
      }
    }
  }

  /** The gaps come in ascending order without overlapping one another. */
  lemma {:induction false} GapsFromAscending(stage: seq<Rule>, q: Range, cursor: int)
    requires Valid(stage)
    ensures Ascending(GapsFrom(stage, q, cursor))
  {
    if stage != [] {
      var r := stage[0].src;
      var rest := stage[1..];
      HeadBelowRest(stage);
      if r.end <= cursor {
        GapsFromAscending(rest, q, cursor);
      } else if r.start <= cursor {
        GapsFromAscending(rest, q, r.end);
      } else if r.start < q.end {
        GapsFromAscending(rest, q, r.end);
        GapsFromSound(rest, q, r.end);
        var tail := GapsFrom(rest, q, r.end);
        var first := Range(cursor, r.start);
        var gs := [first] + tail;
        assert GapsFrom(stage, q, cursor) == gs;
        forall i, j | 0 <= i < j < |gs| ensures gs[i].end <= gs[j].start {
          assert gs[j] == tail[j - 1] && tail[j - 1] in tail;
          if i > 0 {
            assert gs[i] == tail[i - 1];
          }
        }
      } else {
        GapsFromAscending(rest, q, cursor);
      }
    }
  }

  /** A value of `[cursor, q.end)` that no rule holds lies in some gap. */
  lemma {:induction false} GapsFromComplete(stage: seq<Rule>, q: Range, cursor: int, v: int)
    requires Valid(stage)
    requires cursor <= v < q.end
    requires forall rule :: rule in stage ==> !In(v, rule.src)
    ensures exists g :: g in GapsFrom(stage, q, cursor) && In(v, g)
  {
    if stage == [] {
      assert In(v, Range(cursor, q.end));
    } else {
      var r := stage[0].src;
      var rest := stage[1..];
      assert Valid(rest);
      assert forall rule :: rule in rest ==> rule in stage;
      assert !In(v, r);
      if r.end <= cursor {
        GapsFromComplete(rest, q, cursor, v);
      } else if r.start <= cursor {
        GapsFromComplete(rest, q, r.end, v);
      } else if r.start < q.end {
        if v < r.start {
          assert In(v, Range(cursor, r.start));
          assert Range(cursor, r.start) in GapsFrom(stage, q, cursor);
        } else {
          GapsFromComplete(rest, q, r.end, v);
        }
      } else {
        GapsFromComplete(rest, q, cursor, v);
      }
    }
  }

  /** With no rules at all, the only gap of a non-empty range is the range itself. */
  lemma GapsOfEmptyStage(q: Range)
    requires NonEmpty(q)
    ensures Gaps([], q) == [q]
  {
  }

  /** The overlaps of `q`, clipped to `q`, before any offset is applied. */
  function Clips(stage: seq<Rule>, q: Range): (r: seq<Range>)
    ensures |r| == |Overlapping(stage, q)|
    ensures forall k :: 0 <= k < |r| ==> r[k] == Clip(Overlapping(stage, q)[k], q)
  {
    var rules := Overlapping(stage, q);
    seq(|rules|, k requires 0 <= k < |rules| => Clip(rules[k], q))
  }

  /** Partition, coverage half: every value of `q`, and nothing else, lies in a clipped
      overlap or a gap of `q`. */
  lemma PartitionCovers(stage: seq<Rule>, q: Range, v: int)
    requires Valid(stage)
    ensures var pieces := Clips(stage, q) + Gaps(stage, q);
      In(v, q) <==> exists k :: 0 <= k < |pieces| && In(v, pieces[k])
  {
    var ov := Overlapping(stage, q);
    var clips := Clips(stage, q);
    var gaps := Gaps(stage, q);
    var pieces := clips + gaps;
    GapsFromSound(stage, q, q.start);
    forall k | 0 <= k < |pieces| && In(v, pieces[k]) ensures In(v, q) {
      PieceKind(stage, q, v, k);
    }
    if In(v, q) {
      if rule :| rule in stage && In(v, rule.src) {
        assert rule in ov;
        var k :| 0 <= k < |ov| && ov[k] == rule;
        assert In(v, pieces[k]);
      } else {
        GapsFromComplete(stage, q, q.start, v);
        var g :| g in gaps && In(v, g);
        var k :| 0 <= k < |gaps| && gaps[k] == g;
        assert pieces[|clips| + k] == g;
      }
    }
  }

  /** Two rules of a valid stage that share a value are the same rule. */
  lemma ValidUnique(xs: seq<Rule>, i: nat, j: nat, v: int)
    requires Valid(xs) && i < |xs| && j < |xs|
    requires In(v, xs[i].src) && In(v, xs[j].src)
    ensures i == j
  {
  }

  /** Two ascending ranges that share a value are the same range. */
  lemma AscendingUnique(rs: seq<Range>, i: nat, j: nat, v: int)
    requires Ascending(rs) && i < |rs| && j < |rs|
    requires In(v, rs[i]) && In(v, rs[j])
    ensures i == j
  {
  }

  /** What a value in piece `k` of `q` tells: a clipped overlap holds it inside its rule,
      a gap holds it outside every rule. */
  lemma PieceKind(stage: seq<Rule>, q: Range, v: int, k: nat)
    requires Valid(stage)
    requires var pieces := Clips(stage, q) + Gaps(stage, q);
      k < |pieces| && In(v, pieces[k])
    ensures In(v, q)
    ensures var ov := Overlapping(stage, q);
      k < |ov| ==> ov[k] in stage && In(v, ov[k].src)
    ensures var ov := Overlapping(stage, q);
      k >= |ov| ==> (In(v, Gaps(stage, q)[k - |ov|]) &&
        forall rule :: rule in stage ==> !In(v, rule.src))
  {
    var ov := Overlapping(stage, q);
    var clips := Clips(stage, q);
    var gaps := Gaps(stage, q);
    var pieces := clips + gaps;
    if k < |ov| {
      ClipSpec(ov[k], q, v);
      assert ov[k] in ov;
    } else {
      GapsFromSound(stage, q, q.start);
      assert pieces[k] == gaps[k - |ov|];
      assert pieces[k] in gaps;
    }
  }

  /** Partition, exactness half: no value lies in two of the pieces of `q`. */
  lemma PartitionDisjoint(stage: seq<Rule>, q: Range, v: int, k1: nat, k2: nat)
    requires Valid(stage)
    requires var pieces := Clips(stage, q) + Gaps(stage, q);
      k1 < |pieces| && k2 < |pieces| && In(v, pieces[k1]) && In(v, pieces[k2])
    ensures k1 == k2
  {
    var ov := Overlapping(stage, q);
    var n := |ov|;
    PieceKind(stage, q, v, k1);
    PieceKind(stage, q, v, k2);
    assert k1 < n && k2 < n ==> k1 == k2 by {
      if k1 < n && k2 < n {
        OverlappingValid(stage, q);
        ValidUnique(ov, k1, k2, v);
      }
    }
    assert k1 >= n && k2 >= n ==> k1 == k2 by {
      if k1 >= n && k2 >= n {
        GapsFromAscending(stage, q, q.start);
        AscendingUnique(Gaps(stage, q), k1 - n, k2 - n, v);
      }
    }
  }

  // ---------------------------------------------------------------- range mode

  /** All overlap pieces of all input ranges, input range by input range. */
  function OverlapPieces(stage: seq<Rule>, last: seq<Range>): seq<Range> {
    if last == [] then [] else Shifted(stage, last[0]) + OverlapPieces(stage, last[1..])
  }

  /** All gaps of all input ranges, input range by input range. */
  function GapPieces(stage: seq<Rule>, last: seq<Range>): seq<Range> {
    if last == [] then [] else Gaps(stage, last[0]) + GapPieces(stage, last[1..])
  }

  /** One stage of range mode: the overlap pieces followed by the gaps, never merged. */
  function StageStep(stage: seq<Rule>, last: seq<Range>): seq<Range> {
    OverlapPieces(stage, last) + GapPieces(stage, last)
  }

  predicate InSome(v: int, rs: seq<Range>) {
    exists p :: p in rs && In(v, p)
  }

  predicate AllNonEmpty(rs: seq<Range>) {
    forall p :: p in rs ==> NonEmpty(p)
  }

  lemma {:induction false} OverlapPiecesFrom(stage: seq<Rule>, last: seq<Range>, p: Range)
    requires p in OverlapPieces(stage, last)
    ensures exists q, rule :: q in last && rule in Overlapping(stage, q) && p == Piece(rule, q)
  {
    if p in Shifted(stage, last[0]) {
      var s := Shifted(stage, last[0]);
      var k :| 0 <= k < |s| && s[k] == p;
      assert Overlapping(stage, last[0])[k] in Overlapping(stage, last[0]);
    } else {
      OverlapPiecesFrom(stage, last[1..], p);
      var q, rule :| q in last[1..] && rule in Overlapping(stage, q) && p == Piece(rule, q);
      assert q in last;
    }
  }

  lemma {:induction false} OverlapPiecesHas(stage: seq<Rule>, last: seq<Range>, q: Range, rule: Rule)
    requires q in last && rule in Overlapping(stage, q)
    ensures Piece(rule, q) in OverlapPieces(stage, last)
  {
    if q == last[0] {
      var ov := Overlapping(stage, q);
      var k :| 0 <= k < |ov| && ov[k] == rule;
      assert Shifted(stage, q)[k] == Piece(rule, q);
    } else {
      OverlapPiecesHas(stage, last[1..], q, rule);
    }
  }

  lemma {:induction false} GapPiecesMember(stage: seq<Rule>, last: seq<Range>, p: Range)
    ensures p in GapPieces(stage, last) <==> exists q :: q in last && p in Gaps(stage, q)
  {
    if last != [] {
      GapPiecesMember(stage, last[1..], p);
      assert forall q :: q in last <==> q == last[0] || q in last[1..];
    }
  }

  /** Coverage, forward: a value of an input range reappears, moved exactly as scalar mode
      moves it, in some piece the stage emits. */
  lemma StepCoversImage(stage: seq<Rule>, last: seq<Range>, q: Range, v: int)
    requires Valid(stage) && q in last && In(v, q)
    ensures InSome(MapValue(stage, v), StageStep(stage, last))
  {
    MapValueSpec(stage, v);
    if rule :| rule in stage && In(v, rule.src) {
      assert rule in Overlapping(stage, q);
      OverlapPiecesHas(stage, last, q, rule);
      ClipSpec(rule, q, v);
      assert In(MapValue(stage, v), Piece(rule, q));
    } else {
      GapsFromComplete(stage, q, q.start, v);
      var g :| g in Gaps(stage, q) && In(v, g);
      GapPiecesMember(stage, last, g);
      assert g in StageStep(stage, last);
    }
  }

  /** Coverage, backward: every value of every emitted piece is the scalar image of a
      value of some input range. */
  lemma StepOnlyImage(stage: seq<Rule>, last: seq<Range>, p: Range, w: int)
    requires Valid(stage) && p in StageStep(stage, last) && In(w, p)
    ensures exists v :: InSome(v, last) && MapValue(stage, v) == w
  {
    if p in OverlapPieces(stage, last) {
      OverlapPiecesFrom(stage, last, p);
      var q, rule :| q in last && rule in Overlapping(stage, q) && p == Piece(rule, q);
      var v := w - rule.offset;
      ClipSpec(rule, q, v);
      MapValueSpec(stage, v);
      assert InSome(v, last);
    } else {
      assert p in GapPieces(stage, last);
      GapPiecesMember(stage, last, p);
      var q :| q in last && p in Gaps(stage, q);
      GapsFromSound(stage, q, q.start);
      MapValueSpec(stage, w);
      assert InSome(w, last);
    }
  }

  /** Range mode computes exactly the image of the input values under scalar mode. */
  lemma StepImage(stage: seq<Rule>, last: seq<Range>)
    requires Valid(stage)
    ensures forall w :: InSome(w, StageStep(stage, last)) <==>
      exists v :: InSome(v, last) && MapValue(stage, v) == w
  {
    forall w ensures InSome(w, StageStep(stage, last)) <==>
      exists v :: InSome(v, last) && MapValue(stage, v) == w
    {
      if InSome(w, StageStep(stage, last)) {
        var p :| p in StageStep(stage, last) && In(w, p);
        StepOnlyImage(stage, last, p, w);
      }
      if v :| InSome(v, last) && MapValue(stage, v) == w {
        var q :| q in last && In(v, q);
        StepCoversImage(stage, last, q, v);
      }
    }
  }

  /** Non-empty input ranges give non-empty pieces: clipping never produces an empty piece. */
  lemma {:induction false} StepNonEmpty(stage: seq<Rule>, last: seq<Range>)
    requires Valid(stage) && AllNonEmpty(last)
    ensures AllNonEmpty(StageStep(stage, last))
  {
    forall p | p in StageStep(stage, last) ensures NonEmpty(p) {
      if p in OverlapPieces(stage, last) {
        OverlapPiecesFrom(stage, last, p);
      } else {
        GapPiecesMember(stage, last, p);
        var q :| q in last && p in Gaps(stage, q);
        GapsFromSound(stage, q, q.start);
      }
    }
  }

  /** An input range inside one rule comes out as one moved range and no gap. */
  lemma InsideOneRule(stage: seq<Rule>, rule: Rule, q: Range)
    requires Valid(stage) && rule in stage && NonEmpty(q)
    requires rule.src.start <= q.start && q.end <= rule.src.end
    ensures StageStep(stage, [q]) == [Range(q.start + rule.offset, q.end + rule.offset)]
  {
    var ov := Overlapping(stage, q);
    forall x | x in ov ensures x == rule {
      var i :| 0 <= i < |stage| && stage[i] == x;
      var m := if x.src.start < q.start then q.start else x.src.start;
      SameValueSameRule(stage, x, rule, m);
    }
    assert rule in ov;
    OverlappingValid(stage, q);
    OnlyElement(ov, rule);
    GapsFromCovered(stage, rule, q, q.start);
    assert OverlapPieces(stage, [q]) == Shifted(stage, q) + OverlapPieces(stage, []);
    assert GapPieces(stage, [q]) == Gaps(stage, q) + GapPieces(stage, []);
  }

  /** Once the cursor has reached the end of the input range, no gap is left. */
  lemma {:induction false} GapsFromPast(stage: seq<Rule>, q: Range, cursor: int)
    requires q.end <= cursor
    ensures GapsFrom(stage, q, cursor) == []
  {
    if stage != [] {
      var r := stage[0].src;
      if r.end <= cursor || r.start > cursor {
        GapsFromPast(stage[1..], q, cursor);
      } else {
        GapsFromPast(stage[1..], q, r.end);
      }
    }
  }

  /** A stored range that covers everything from the cursor to the end leaves no gap. */
  lemma {:induction false} GapsFromCovered(stage: seq<Rule>, rule: Rule, q: Range, cursor: int)
    requires Valid(stage) && rule in stage
    requires rule.src.start <= cursor && q.end <= rule.src.end
    ensures GapsFrom(stage, q, cursor) == []
  {
    var r := stage[0].src;
    if stage[0] == rule {
      if r.end <= cursor {
        GapsFromPast(stage[1..], q, cursor);
      } else {
        GapsFromPast(stage[1..], q, r.end);
      }
    } else {
      HeadBelowRest(stage);
      assert rule in stage[1..];
      GapsFromCovered(stage[1..], rule, q, cursor);
    }
  }

  /** The first two rules of a valid stage are different rules. */
  lemma SecondDiffers(xs: seq<Rule>)
    requires Valid(xs)
    ensures |xs| >= 2 ==> xs[1] in xs && xs[1] != xs[0]
  {
    if |xs| >= 2 {
      assert xs[0].src.end <= xs[1].src.start;
    }
  }

  lemma OnlyElement(xs: seq<Rule>, x: Rule)
    requires Valid(xs) && x in xs && forall y :: y in xs ==> y == x
    ensures xs == [x]
  {
    SecondDiffers(xs);
    assert xs[0] in xs;
  }

  /** A range that no rule meets has no overlaps. */
  lemma {:induction false} OverlappingNone(stage: seq<Rule>, q: Range)
    requires forall rule :: rule in stage ==> !Overlaps(rule.src, q)
    ensures Overlapping(stage, q) == []
  {
    if stage != [] {
      assert stage[0] in stage;
      assert forall rule :: rule in stage[1..] ==> rule in stage;
      OverlappingNone(stage[1..], q);
    }
  }

  /** With the cursor inside `q` and no rule meeting `[cursor, q.end)`, the one gap is that stretch. */
  lemma {:induction false} GapsFromUntouched(stage: seq<Rule>, q: Range, cursor: int)
    requires cursor < q.end
    requires forall rule :: rule in stage ==> !Overlaps(rule.src, Range(cursor, q.end))
    ensures GapsFrom(stage, q, cursor) == [Range(cursor, q.end)]
  {
    if stage != [] {
      assert stage[0] in stage;
      assert forall rule :: rule in stage[1..] ==> rule in stage;
      GapsFromUntouched(stage[1..], q, cursor);
    }
  }

  /** An input range that no rule meets comes out unchanged. */
  lemma OutsideAllRules(stage: seq<Rule>, q: Range)
    requires Valid(stage) && NonEmpty(q)
    requires forall rule :: rule in stage ==> !Overlaps(rule.src, q)
    ensures StageStep(stage, [q]) == [q]
  {
    OverlappingNone(stage, q);
    GapsFromUntouched(stage, q, q.start);
    assert OverlapPieces(stage, [q]) == Shifted(stage, q) + OverlapPieces(stage, []);
    assert GapPieces(stage, [q]) == Gaps(stage, q) + GapPieces(stage, []);
  }

  // ---------------------------------------------------------------- pipelines

  /** Scalar mode through a list of stages, applied first to last. */
  function ScalarPipeline(stages: seq<seq<Rule>>, v: int): int {
    if stages == [] then v
    else MapValue(stages[|stages| - 1], ScalarPipeline(stages[..|stages| - 1], v))
  }

  /** Range mode through a list of stages, applied first to last. */
  function RangePipeline(stages: seq<seq<Rule>>, seeds: seq<Range>): seq<Range> {
    if stages == [] then seeds
    else StageStep(stages[|stages| - 1], RangePipeline(stages[..|stages| - 1], seeds))
  }

  predicate AllValid(stages: seq<seq<Rule>>) {
    forall k :: 0 <= k < |stages| ==> Valid(stages[k])
  }

  /** The values range mode ends with are exactly the scalar-mode images of the seed values. */
  lemma {:induction false} PipelineImage(stages: seq<seq<Rule>>, seeds: seq<Range>)
    requires AllValid(stages)
    ensures forall w :: InSome(w, RangePipeline(stages, seeds)) <==>
      exists v :: InSome(v, seeds) && ScalarPipeline(stages, v) == w
    ensures AllNonEmpty(seeds) ==> AllNonEmpty(RangePipeline(stages, seeds))
  {
    if stages != [] {
      var init := stages[..|stages| - 1];
      var stage := stages[|stages| - 1];
      PipelineImage(init, seeds);
      var mid := RangePipeline(init, seeds);
      StepImage(stage, mid);
      if AllNonEmpty(seeds) {
        StepNonEmpty(stage, mid);
      }
      forall w ensures InSome(w, RangePipeline(stages, seeds)) <==>
        exists v :: InSome(v, seeds) && ScalarPipeline(stages, v) == w
      {
        if InSome(w, RangePipeline(stages, seeds)) {
          var u :| InSome(u, mid) && MapValue(stage, u) == w;
          var v :| InSome(v, seeds) && ScalarPipeline(init, v) == u;
          assert ScalarPipeline(stages, v) == w;
        }
        if v :| InSome(v, seeds) && ScalarPipeline(stages, v) == w {
          var u := ScalarPipeline(init, v);
          assert InSome(u, mid);
          assert MapValue(stage, u) == w;
        }
      }
    }
  }

  /** The least start among a list of ranges; `None` for an empty list. */
  function MinStart(rs: seq<Range>): (m: Option<int>)
    ensures m.Some? <==> |rs| > 0
    ensures m.Some? ==> (exists p :: p in rs && p.start == m.value) &&
                        forall p :: p in rs ==> m.value <= p.start
  {
    if rs == [] then None
    else match MinStart(rs[1..])
      case None => Some(rs[0].start)
      case Some(m) =>
        assert forall p :: p in rs ==> p == rs[0] || p in rs[1..];
        Some(if rs[0].start <= m then rs[0].start else m)
  }

  lemma ImageReached(stages: seq<seq<Rule>>, seeds: seq<Range>, v: int)
    requires AllValid(stages) && InSome(v, seeds)
    ensures InSome(ScalarPipeline(stages, v), RangePipeline(stages, seeds))
  {
    PipelineImage(stages, seeds);
  }

  lemma ImageOnly(stages: seq<seq<Rule>>, seeds: seq<Range>, w: int)
    requires AllValid(stages) && InSome(w, RangePipeline(stages, seeds))
    ensures exists v :: InSome(v, seeds) && ScalarPipeline(stages, v) == w
  {
    PipelineImage(stages, seeds);
  }

  /** Range mode finds the least scalar-mode result over every value of every seed range,
      whenever the seed ranges are non-empty. */
  lemma RangeModeIsScalarMinimum(stages: seq<seq<Rule>>, seeds: seq<Range>)
    requires AllValid(stages) && AllNonEmpty(seeds) && |seeds| > 0
    ensures MinStart(RangePipeline(stages, seeds)).Some?
    ensures var m := MinStart(RangePipeline(stages, seeds)).value;
      && (exists v :: InSome(v, seeds) && ScalarPipeline(stages, v) == m)
      && (forall v :: InSome(v, seeds) ==> m <= ScalarPipeline(stages, v))
  {
    var fin := RangePipeline(stages, seeds);
    PipelineImage(stages, seeds);
    var s0 := seeds[0].start;
    assert seeds[0] in seeds && In(s0, seeds[0]);
    ImageReached(stages, seeds, s0);
    var p0 :| p0 in fin && In(ScalarPipeline(stages, s0), p0);
    var m := MinStart(fin).value;
    var p :| p in fin && p.start == m;
    assert In(m, p);
    ImageOnly(stages, seeds, m);
    forall v | InSome(v, seeds) ensures m <= ScalarPipeline(stages, v) {
      ImageReached(stages, seeds, v);
      var pw :| pw in fin && In(ScalarPipeline(stages, v), pw);
    }
  }

  /** No seed range, no piece: the answer of an empty seed list is `None`. */
  lemma {:induction false} PipelineOfNothing(stages: seq<seq<Rule>>)
    ensures RangePipeline(stages, []) == []
  {
    if stages != [] {
      PipelineOfNothing(stages[..|stages| - 1]);
    }
  }

  /** One stage yields the same pieces from two lists that hold the same ranges: each
      input range is cut on its own. */
  lemma StepSameMembers(stage: seq<Rule>, a: seq<Range>, b: seq<Range>, p: Range)
    requires forall q :: q in a <==> q in b
    requires p in StageStep(stage, a)
    ensures p in StageStep(stage, b)
  {
    if p in OverlapPieces(stage, a) {
      OverlapPiecesFrom(stage, a, p);
      var q, rule :| q in a && rule in Overlapping(stage, q) && p == Piece(rule, q);
      OverlapPiecesHas(stage, b, q, rule);
    } else {
      GapPiecesMember(stage, a, p);
      GapPiecesMember(stage, b, p);
    }
  }

  /** Seed lists holding the same ranges end with lists holding the same pieces. */
  lemma {:induction false} PipelineSameMembers(stages: seq<seq<Rule>>, a: seq<Range>, b: seq<Range>)
    requires forall q :: q in a <==> q in b
    ensures forall p :: p in RangePipeline(stages, a) <==> p in RangePipeline(stages, b)
  {
    if stages != [] {
      var init := stages[..|stages| - 1];
      var stage := stages[|stages| - 1];
      PipelineSameMembers(init, a, b);
      var ma, mb := RangePipeline(init, a), RangePipeline(init, b);
      forall p ensures p in StageStep(stage, ma) <==> p in StageStep(stage, mb) {
        if p in StageStep(stage, ma) {
          StepSameMembers(stage, ma, mb, p);
        }
        if p in StageStep(stage, mb) {
          StepSameMembers(stage, mb, ma, p);
        }
      }
    }
  }

  /** The least start depends only on which ranges are listed. */
  lemma MinStartSameMembers(x: seq<Range>, y: seq<Range>)
    requires forall p :: p in x <==> p in y
    ensures MinStart(x) == MinStart(y)
  {
    if |x| > 0 {
      assert x[0] in y;
    }
    if |y| > 0 {
      assert y[0] in x;
    }
    if MinStart(x).Some? {
      var px :| px in x && px.start == MinStart(x).value;
      var py :| py in y && py.start == MinStart(y).value;
      assert px in y && py in x;
    }
  }

  /** The order (and repetition) in which the seed ranges are listed does not change the
      answer, whatever the ranges are. */
  lemma AnswerIgnoresSeedOrder(stages: seq<seq<Rule>>, a: seq<Range>, b: seq<Range>)
    requires forall p :: p in a <==> p in b
    ensures MinStart(RangePipeline(stages, a)) == MinStart(RangePipeline(stages, b))
  {
    PipelineSameMembers(stages, a, b);
    MinStartSameMembers(RangePipeline(stages, a), RangePipeline(stages, b));
  }

  /** For any seed ranges, empty ones included: the answer is at most every location, and
      it is a location unless it is the start of an empty piece, which only an empty (or
      reversed) seed range can leave behind. */
  lemma RangeModeBound(stages: seq<seq<Rule>>, seeds: seq<Range>)
    requires AllValid(stages)
    ensures forall v :: InSome(v, seeds) ==>
      MinStart(RangePipeline(stages, seeds)).Some? &&
      MinStart(RangePipeline(stages, seeds)).value <= ScalarPipeline(stages, v)
    ensures MinStart(RangePipeline(stages, seeds)).Some? ==>
      var m := MinStart(RangePipeline(stages, seeds)).value;
      (exists v :: InSome(v, seeds) && ScalarPipeline(stages, v) == m) ||
      (!AllNonEmpty(seeds) && exists p :: p in RangePipeline(stages, seeds) && !NonEmpty(p) && p.start == m)
  {
    var fin := RangePipeline(stages, seeds);
    PipelineImage(stages, seeds);
    forall v | InSome(v, seeds)
      ensures MinStart(fin).Some? && MinStart(fin).value <= ScalarPipeline(stages, v)
    {
      ImageReached(stages, seeds, v);
      var pw :| pw in fin && In(ScalarPipeline(stages, v), pw);
    }
    if MinStart(fin).Some? {
      var m := MinStart(fin).value;
      var p :| p in fin && p.start == m;
      if NonEmpty(p) {
        assert In(m, p);
        ImageOnly(stages, seeds, m);
      }
    }
  }

  /** An empty seed range inside a rule leaves an empty shifted piece whose start is below
      every location: seeds `100..100` and `50..60` through one rule moving `90..110` down
      by 90 end as `10..10` and `50..60`, so the answer is 10, while every location is at
      least 50. */
  lemma EmptySeedRangeExample()
    ensures var stages := [[Rule(Range(90, 110), -90)]];
      var seeds := [Range(100, 100), Range(50, 60)];
      && RangePipeline(stages, seeds) == [Range(10, 10), Range(50, 60)]
      && MinStart(RangePipeline(stages, seeds)) == Some(10)
      && forall v :: InSome(v, seeds) ==> ScalarPipeline(stages, v) >= 50
  {
    var stage := [Rule(Range(90, 110), -90)];
    var stages := [stage];
    var seeds := [Range(100, 100), Range(50, 60)];
    assert Overlapping(stage, Range(100, 100)) == stage;
    assert Overlapping(stage, Range(50, 60)) == [];
    assert Shifted(stage, Range(100, 100)) == [Range(10, 10)];
    assert Gaps(stage, Range(100, 100)) == [];
    assert Gaps(stage, Range(50, 60)) == [Range(50, 60)];
    assert OverlapPieces(stage, seeds) == [Range(10, 10)];
    assert GapPieces(stage, seeds) == [Range(50, 60)];
    assert stages[..0] == [];
    forall v | InSome(v, seeds) ensures ScalarPipeline(stages, v) >= 50 {
      var p :| p in seeds && In(v, p);
      MapValueSpec(stage, v);
    }
  }
}
