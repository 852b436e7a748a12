/** Day 8: a walk through a network of named nodes. The first line is a cycle of left
    and right instructions; every further line names a node and its left and right
    neighbours. Part 1 walks from "AAA" to "ZZZ"; part 2 walks from every node whose name
    ends in 'A' at once until all of them stand on names ending in 'Z'. */
module Day8 {
  import opened Wrappers
  import opened Text

  // ---------------------------------------------------------------- instructions

  datatype Step = Left | Right

  function DecodeStep(c: char): Option<Step> {
    if c == 'L' then Some(Left) else if c == 'R' then Some(Right) else None
  }

  /** `k` reduced modulo `n`, by repeated subtraction. */
  function Cursor(k: nat, n: nat): (r: nat)
    requires n > 0
    ensures r < n
    decreases k
  {
    if k < n then k else Cursor(k - n, n)
  }

  /** Advancing `k` by one advances the cursor by one, wrapping to 0 at `n`. */
  lemma {:induction false} CursorNext(k: nat, n: nat)
    requires n > 0
    ensures Cursor(k + 1, n) == if Cursor(k, n) + 1 == n then 0 else Cursor(k, n) + 1
    decreases k
  {
    if k >= n {
      CursorNext(k - n, n);
    }
  }

  /** The step pulled `k`-th from `steps(line)`: character `k mod |line|`, decoded;
      `None` where the iterator panics (an empty line, or a character other than 'L' or
      'R' once it is reached). */
  function StepAt(line: string, k: nat): (r: Option<Step>)
    ensures |line| == 0 ==> r.None?
    ensures k < |line| ==> r == DecodeStep(line[k])
  {
    if |line| == 0 then None else DecodeStep(line[Cursor(k, |line|)])
  }

  /** The instructions repeat with the length of the line. */
  lemma StepPeriodic(line: string, k: nat)
    ensures StepAt(line, k + |line|) == StepAt(line, k)
  {
  }

  /** `steps`: the `cycle` iterator over the line's mapped characters. */
  class StepCycle {
    const line: string
    var index: nat

    predicate Valid()
      reads this
    {
      index < |line| || index == 0
    }

    constructor(line: string)
      ensures this.line == line && index == 0 && Valid()
    {
      this.line := line;
      index := 0;
    }

    /** `next`: the character at the cursor, decoded; the cursor wraps to the start of
        the line after its last character. */
    method Next() returns (s: Option<Step>)
      requires Valid()
      modifies this
      ensures Valid()
      ensures |line| == 0 ==> s == None && index == old(index)
      ensures |line| > 0 ==> s == DecodeStep(line[old(index)])
      ensures |line| > 0 ==> index == if old(index) + 1 == |line| then 0 else old(index) + 1
    {
      if |line| == 0 {
        return None;
      }
      s := DecodeStep(line[index]);
      index := if index + 1 == |line| then 0 else index + 1;
    }
  }

  /** Every step up to the `k`-th can be pulled without a panic. */
  predicate StepsDefined(line: string, k: nat) {
    forall j :: 0 <= j < k ==> StepAt(line, j).Some?
  }

  /** Past one full pass, the steps are defined exactly when the line is made of 'L' and 'R'. */
  lemma StepsDefinedIff(line: string, k: nat)
    requires k >= |line| > 0
    ensures StepsDefined(line, k) <==> forall i :: 0 <= i < |line| ==> line[i] == 'L' || line[i] == 'R'
  {
    if StepsDefined(line, k) {
      forall i | 0 <= i < |line| ensures line[i] == 'L' || line[i] == 'R' {
        assert StepAt(line, i).Some?;
      }
    }
  }

  // ---------------------------------------------------------------- node lines

  predicate IsAlnum(c: char) {
    'a' <= c <= 'z' || 'A' <= c <= 'Z' || '0' <= c <= '9'
  }

  predicate AllAlnum(s: string) {
    forall i :: 0 <= i < |s| ==> IsAlnum(s[i])
  }

  /** The length of the run `alphanumeric0` would take. */
  function AlnumLength(s: string): (n: nat)
    ensures n <= |s| && AllAlnum(s[..n]) && (n < |s| ==> !IsAlnum(s[n]))
  {
    if s == [] || !IsAlnum(s[0]) then 0
    else
      var n := 1 + AlnumLength(s[1..]);
      assert forall i :: 1 <= i < n ==> s[..n][i] == s[1..][..n - 1][i - 1];
      n
  }

  /** The length of the run `space0` takes: spaces and tabs. */
  function SpaceLength(s: string): (n: nat)
    ensures n <= |s| && (n < |s| ==> s[n] != ' ' && s[n] != '\t')
    ensures forall i :: 0 <= i < n ==> s[i] == ' ' || s[i] == '\t'
  {
    if s == [] || (s[0] != ' ' && s[0] != '\t') then 0 else 1 + SpaceLength(s[1..])
  }

  /** `alphanumeric1`: a non-empty run, and the text after it. */
  function Word(s: string): (r: Option<(string, string)>)
    ensures r.Some? ==> |r.value.0| > 0 && AllAlnum(r.value.0)
  {
    var n := AlnumLength(s);
    if n == 0 then None else Some((s[..n], s[n..]))
  }

  /** `tag(t)`: the text after `t`. */
  function Tag(s: string, t: string): Option<string> {
    if t <= s then Some(s[|t|..]) else None
  }

  /** A word and the text after it make up the text read. */
  lemma WordSplits(s: string)
    requires Word(s).Some?
    ensures s == Word(s).value.0 + Word(s).value.1
  {
  }

  /** A tag and the text after it make up the text read. */
  lemma TagSplits(s: string, t: string)
    requires Tag(s, t).Some?
    ensures s == t + Tag(s, t).value
  {
  }

  /** `node_parser` followed by `unwrap().1`: optional spaces and tabs, `NAME = (X, Y)`; the
      text after the ')' is ignored. */
  function ParseNode(line: string): (r: Option<(string, string, string)>)
    ensures r.Some? ==> (|r.value.0| > 0 && AllAlnum(r.value.0) &&
      |r.value.1| > 0 && AllAlnum(r.value.1) && |r.value.2| > 0 && AllAlnum(r.value.2))
  {
    var afterSpace := line[SpaceLength(line)..];
    var (name, r1) :- Word(afterSpace);
    var r2 :- Tag(r1, " = ");
    var r3 :- Tag(r2, "(");
    var (x, r4) :- Word(r3);
    var r5 :- Tag(r4, ", ");
    var (y, r6) :- Word(r5);
    var _ :- Tag(r6, ")");
    Some((name, x, y))
  }

  lemma WordOf(w: string, rest: string)
    requires |w| > 0 && AllAlnum(w) && (rest == [] || !IsAlnum(rest[0]))
    ensures Word(w + rest) == Some((w, rest))
  {
    AlnumRun(w, rest);
    assert (w + rest)[..|w|] == w && (w + rest)[|w|..] == rest;
  }

  lemma {:induction false} AlnumRun(w: string, rest: string)
    requires AllAlnum(w) && (rest == [] || !IsAlnum(rest[0]))
    ensures AlnumLength(w + rest) == |w|
  {
    if w != [] {
      assert (w + rest)[1..] == w[1..] + rest;
      AlnumRun(w[1..], rest);
    } else {
      assert w + rest == rest;
    }
  }

  lemma TagOf(t: string, rest: string)
    ensures Tag(t + rest, t) == Some(rest)
  {
    assert t <= t + rest;
    assert (t + rest)[|t|..] == rest;
  }

  lemma {:induction false} SpaceRun(sp: string, rest: string)
    requires forall i :: 0 <= i < |sp| ==> sp[i] == ' ' || sp[i] == '\t'
    requires rest == [] || (rest[0] != ' ' && rest[0] != '\t')
    ensures SpaceLength(sp + rest) == |sp|
  {
    if sp != [] {
      assert (sp + rest)[1..] == sp[1..] + rest;
      SpaceRun(sp[1..], rest);
    } else {
      assert sp + rest == rest;
    }
  }

  /** Every line written as `NAME = (X, Y)`, after any indentation and before any trailing
      text, parses back to its three names. */
  lemma ParseNodeRoundTrip(indent: string, name: string, x: string, y: string, trailer: string)
    requires forall i :: 0 <= i < |indent| ==> indent[i] == ' ' || indent[i] == '\t'
    requires |name| > 0 && AllAlnum(name) && |x| > 0 && AllAlnum(x) && |y| > 0 && AllAlnum(y)
    ensures ParseNode(indent + name + " = (" + x + ", " + y + ")" + trailer) == Some((name, x, y))
  {
    var r6 := ")" + trailer;
    var r5 := y + r6;
    var r4 := ", " + r5;
    var r3 := x + r4;
    var r2 := "(" + r3;
    var r1 := " = " + r2;
    var afterSpace := name + r1;
    var line := indent + afterSpace;
    assert line == indent + name + " = (" + x + ", " + y + ")" + trailer;
    SpaceRun(indent, afterSpace);
    assert line[|indent|..] == afterSpace;
    WordOf(name, r1);
    TagOf(" = ", r2);
    TagOf("(", r3);
    WordOf(x, r4);
    TagOf(", ", r5);
    WordOf(y, r6);
    TagOf(")", trailer);
  }

  lemma ConcatAssoc(a: string, b: string, c: string)
    ensures a + (b + c) == (a + b) + c
  {
  }

  /** The converse of the round trip: a line that parses starts, right after its spaces
      and tabs, with `NAME = (X, Y)`, the pieces read glued back together. */
  lemma ParseNodeShape(line: string)
    requires ParseNode(line).Some?
    ensures var (name, x, y) := ParseNode(line).value;
      var rest, core := line[SpaceLength(line)..], name + (" = " + ("(" + (x + (", " + (y + ")")))));
      |core| <= |rest| && rest[..|core|] == core
  {
    var afterSpace := line[SpaceLength(line)..];
    var (name, r1) := Word(afterSpace).value;
    var r2 := Tag(r1, " = ").value;
    var r3 := Tag(r2, "(").value;
    var (x, r4) := Word(r3).value;
    var r5 := Tag(r4, ", ").value;
    var (y, r6) := Word(r5).value;
    var r7 := Tag(r6, ")").value;
    WordSplits(afterSpace);
    TagSplits(r1, " = ");
    TagSplits(r2, "(");
    WordSplits(r3);
    TagSplits(r4, ", ");
    WordSplits(r5);
    TagSplits(r6, ")");
    var c6 := ")";
    var c5 := y + c6;
    var c4 := ", " + c5;
    var c3 := x + c4;
    var c2 := "(" + c3;
    var c1 := " = " + c2;
    var c0 := name + c1;
    ConcatAssoc(y, c6, r7);
    ConcatAssoc(", ", c5, r7);
    ConcatAssoc(x, c4, r7);
    ConcatAssoc("(", c3, r7);
    ConcatAssoc(" = ", c2, r7);
    ConcatAssoc(name, c1, r7);
    assert afterSpace == c0 + r7;
    assert ParseNode(line).value == (name, x, y);
    assert afterSpace[..|c0|] == c0;
  }

  // ---------------------------------------------------------------- nodes

  /** `Node`: its name and the indices of its left and right neighbours. */
  datatype Node = Node(name: string, left: nat, right: nat)

  /** Every neighbour index points into the network. */
  predicate Linked(nodes: seq<Node>) {
    forall i :: 0 <= i < |nodes| ==> nodes[i].left < |nodes| && nodes[i].right < |nodes|
  }

  /** `position(|(n, _)| n == x)`: the first entry named `x`. */
  function Position(names: seq<string>, x: string): (r: Option<nat>)
    ensures r.Some? ==> (r.value < |names| && names[r.value] == x &&
      forall j :: 0 <= j < r.value ==> names[j] != x)
    ensures r.None? ==> forall j :: 0 <= j < |names| ==> names[j] != x
  {
    if names == [] then None
    else
      var n := |names| - 1;
      match Position(names[..n], x)
      case Some(p) => Some(p)
      case None => if names[n] == x then Some(n) else None
  }

  function ParseNodes(lines: seq<string>): (r: Option<seq<(string, string, string)>>)
    ensures r.Some? ==> |r.value| == |lines|
    ensures r.Some? ==> forall k :: 0 <= k < |lines| ==> ParseNode(lines[k]) == Some(r.value[k])
  {
    ParseEachSpec(lines, ParseNode);
    ParseEach(lines, ParseNode)
  }

  function Names(parsed: seq<(string, string, string)>): (r: seq<string>)
    ensures |r| == |parsed| && forall k :: 0 <= k < |parsed| ==> r[k] == parsed[k].0
  {
    seq(|parsed|, k requires 0 <= k < |parsed| => parsed[k].0)
  }

  /** The first `k` nodes, each neighbour resolved against all the names. */
  function Resolve(parsed: seq<(string, string, string)>, k: nat): (r: Option<seq<Node>>)
    requires k <= |parsed|
    ensures r.Some? ==> |r.value| == k
    ensures r.Some? ==> forall i :: 0 <= i < k ==>
      r.value[i].name == parsed[i].0 &&
      Position(Names(parsed), parsed[i].1) == Some(r.value[i].left) &&
      Position(Names(parsed), parsed[i].2) == Some(r.value[i].right)
  {
    if k == 0 then Some([])
    else
      var init := Resolve(parsed, k - 1);
      var (name, x, y) := parsed[k - 1];
      var left := Position(Names(parsed), x);
      var right := Position(Names(parsed), y);
      if init.None? || left.None? || right.None? then None
      else Some(init.value + [Node(name, left.value, right.value)])
  }

  /** `nodes`: every line parsed, then every neighbour name replaced by the index of the
      first node of that name; `None` where a line does not parse or a name is missing. */
  function Nodes(lines: seq<string>): (r: Option<seq<Node>>)
    ensures r.Some? ==> |r.value| == |lines| && Linked(r.value)
  {
    var parsed :- ParseNodes(lines);
    Resolve(parsed, |parsed|)
  }

  /** The input: the instruction line, then (after one skipped line) the nodes. */
  function Setup(input: string): (r: Option<(string, seq<Node>)>)
    ensures var lines := Lines(input);
      r.Some? ==> (|lines| > 0 && r.value.0 == lines[0] && Linked(r.value.1) &&
        |r.value.1| == if |lines| < 2 then 0 else |lines| - 2)
  {
    var lines := Lines(input);
    if |lines| == 0 then None
    else
      var nodes :- Nodes(if |lines| < 2 then [] else lines[2..]);
      Some((lines[0], nodes))
  }

  function NodeNames(nodes: seq<Node>): (r: seq<string>)
    ensures |r| == |nodes| && forall k :: 0 <= k < |nodes| ==> r[k] == nodes[k].name
  {
    seq(|nodes|, k requires 0 <= k < |nodes| => nodes[k].name)
  }

  // ---------------------------------------------------------------- walking

  function Move(node: Node, step: Step): nat {
    match step
    case Left => node.left
    case Right => node.right
  }

  /** The index of the node reached from `start` after `k` steps. */
  function Walk(nodes: seq<Node>, line: string, start: nat, k: nat): (r: nat)
    requires Linked(nodes) && start < |nodes| && StepsDefined(line, k)
    ensures r < |nodes|
  {
    if k == 0 then start
    else Move(nodes[Walk(nodes, line, start, k - 1)], StepAt(line, k - 1).value)
  }

  /** How a walk ends within `limit` steps: after some number of steps, with a panic, or
      not yet. */
  datatype Outcome = Steps(taken: nat) | Panic | Unfinished

  /** The outcome of a walk that stops on the first state satisfying `stop`, given the
      states after each number of steps: a panic is the first step that cannot be pulled. */
  predicate Describes(line: string, stopAt: nat -> bool, limit: nat, o: Outcome) {
    match o
    case Steps(k) =>
      k <= limit && StepsDefined(line, k) && stopAt(k) &&
      forall j :: 0 <= j < k ==> !stopAt(j)
    case Panic =>
      exists k :: 0 <= k < limit && StepsDefined(line, k) && StepAt(line, k).None? &&
        forall j :: 0 <= j <= k ==> !stopAt(j)
    case Unfinished =>
      StepsDefined(line, limit) && forall j :: 0 <= j <= limit ==> !stopAt(j)
  }

  /** The outcome found by looking at the states in order from `j`. */
  function First(line: string, stopAt: nat -> bool, limit: nat, j: nat): Outcome
    requires j <= limit
    decreases limit - j
  {
    if stopAt(j) then Steps(j)
    else if j == limit then Unfinished
    else if StepAt(line, j).None? then Panic
    else First(line, stopAt, limit, j + 1)
  }

  lemma {:induction false} DescribesFirst(line: string, stopAt: nat -> bool, limit: nat, o: Outcome, j: nat)
    requires Describes(line, stopAt, limit, o)
    requires j <= limit && StepsDefined(line, j) && forall i :: 0 <= i < j ==> !stopAt(i)
    ensures First(line, stopAt, limit, j) == o
    decreases limit - j
  {
    if !stopAt(j) && j < limit && StepAt(line, j).Some? {
      DescribesFirst(line, stopAt, limit, o, j + 1);
    }
  }

  /** Each walk has exactly one outcome. */
  lemma DescribesUnique(line: string, stopAt: nat -> bool, limit: nat, o: Outcome, o': Outcome)
    requires Describes(line, stopAt, limit, o) && Describes(line, stopAt, limit, o')
    ensures o == o'
  {
    DescribesFirst(line, stopAt, limit, o, 0);
    DescribesFirst(line, stopAt, limit, o', 0);
  }

  /** A walk whose stop condition holds at the start takes no step. */
  lemma StopsAtOnce(line: string, stopAt: nat -> bool, limit: nat, o: Outcome)
    requires stopAt(0) && Describes(line, stopAt, limit, o)
    ensures o == Steps(0)
  {
    DescribesUnique(line, stopAt, limit, o, Steps(0));
  }

  /** The walk of part 1 from `start` stands on "ZZZ" after `k` steps. */
  predicate ZZZAt(nodes: seq<Node>, line: string, start: nat, k: nat)
    requires Linked(nodes) && start < |nodes|
  {
    StepsDefined(line, k) && nodes[Walk(nodes, line, start, k)].name == "ZZZ"
  }

  /** Part 1 stops on the node named "ZZZ". */
  function AtZZZ(nodes: seq<Node>, line: string, start: nat): nat -> bool
    requires Linked(nodes) && start < |nodes|
  {
    (k: nat) => ZZZAt(nodes, line, start, k)
  }

  lemma WalkNext(nodes: seq<Node>, line: string, start: nat, k: nat)
    requires Linked(nodes) && start < |nodes| && StepsDefined(line, k) && StepAt(line, k).Some?
    ensures StepsDefined(line, k + 1)
    ensures Walk(nodes, line, start, k + 1) == Move(nodes[Walk(nodes, line, start, k)], StepAt(line, k).value)
  {
  }

  /** One more step of part 1's walk, from a node other than "ZZZ". */
  lemma ZZZStep(nodes: seq<Node>, line: string, start: nat, k: nat, s: Step)
    requires Linked(nodes) && start < |nodes| && StepsDefined(line, k) && StepAt(line, k) == Some(s)
    requires forall j :: 0 <= j < k ==> !ZZZAt(nodes, line, start, j)
    requires nodes[Walk(nodes, line, start, k)].name != "ZZZ"
    ensures StepsDefined(line, k + 1)
    ensures Walk(nodes, line, start, k + 1) == Move(nodes[Walk(nodes, line, start, k)], s)
    ensures forall j :: 0 <= j < k + 1 ==> !ZZZAt(nodes, line, start, j)
  {
    WalkNext(nodes, line, start, k);
  }

  /** How part 1's walk ends, from the facts its loop has gathered by step `k`. */
  lemma ZZZOutcome(nodes: seq<Node>, line: string, start: nat, limit: nat, k: nat, o: Outcome)
    requires Linked(nodes) && start < |nodes| && k <= limit && StepsDefined(line, k)
    requires forall j :: 0 <= j < k ==> !ZZZAt(nodes, line, start, j)
    requires o.Steps? ==> o.taken == k && nodes[Walk(nodes, line, start, k)].name == "ZZZ"
    requires o.Panic? ==> k < limit && StepAt(line, k).None? && nodes[Walk(nodes, line, start, k)].name != "ZZZ"
    requires o.Unfinished? ==> k == limit && nodes[Walk(nodes, line, start, k)].name != "ZZZ"
    ensures Describes(line, AtZZZ(nodes, line, start), limit, o)
  {
    var stop := AtZZZ(nodes, line, start);
    assert forall j :: 0 <= j < k ==> !stop(j);
    if o.Panic? {
      assert forall j :: 0 <= j <= k ==> !stop(j);
    }
  }

  /** The `while` loop of `part1` from node `start`, for at most `limit` steps. */
  method WalkOne(nodes: seq<Node>, line: string, start: nat, limit: nat) returns (o: Outcome)
    requires Linked(nodes) && start < |nodes|
    ensures Describes(line, AtZZZ(nodes, line, start), limit, o)
  {
    var steps := new StepCycle(line);
    var node := nodes[start];
    var taken: nat := 0;
    ghost var at := start;
    while node.name != "ZZZ"
      invariant steps.Valid() && steps.line == line
      invariant |line| > 0 ==> steps.index == Cursor(taken, |line|)
      invariant taken <= limit && StepsDefined(line, taken)
      invariant at == Walk(nodes, line, start, taken) && node == nodes[at]
      invariant forall j :: 0 <= j < taken ==> !ZZZAt(nodes, line, start, j)
      decreases limit - taken
    {
      if taken == limit {
        ZZZOutcome(nodes, line, start, limit, taken, Unfinished);
        return Unfinished;
      }
      var step := steps.Next();
      assert step == StepAt(line, taken);
      if step.None? {
        ZZZOutcome(nodes, line, start, limit, taken, Panic);
        return Panic;
      }
      if |line| > 0 {
        CursorNext(taken, |line|);
      }
      ZZZStep(nodes, line, start, taken, step.value);
      taken := taken + 1;
      at := Move(node, step.value);
      node := match step.value {
        case Left => nodes[node.left]
        case Right => nodes[node.right]
      };
    }
    ZZZOutcome(nodes, line, start, limit, taken, Steps(taken));
    o := Steps(taken);
  }

  /** `part1`: from the first node named "AAA"; `None`-like panics where the input has no
      lines, a node line does not parse, a neighbour is missing or there is no "AAA". */
  method Part1(input: string, limit: nat) returns (o: Outcome)
    ensures Setup(input).None? ==> o == Panic
    ensures Setup(input).Some? ==>
      var (line, nodes) := Setup(input).value;
      var start := Position(NodeNames(nodes), "AAA");
      (start.None? ==> o == Panic) &&
      (start.Some? ==> Describes(line, AtZZZ(nodes, line, start.value), limit, o))
  {
    var setup := Setup(input);
    if setup.None? {
      return Panic;
    }
    var (line, nodes) := setup.value;
    var start := Position(NodeNames(nodes), "AAA");
    if start.None? {
      return Panic;
    }
    o := WalkOne(nodes, line, start.value, limit);
  }

  // ---------------------------------------------------------------- part 2

  predicate EndsWith(name: string, c: char) {
    |name| > 0 && name[|name| - 1] == c
  }

  /** The indices of the nodes whose names end in 'A', in order. */
  function Starts(nodes: seq<Node>, k: nat): (r: seq<nat>)
    requires k <= |nodes|
    ensures forall i :: 0 <= i < |r| ==> r[i] < k && EndsWith(nodes[r[i]].name, 'A')
    ensures forall p :: 0 <= p < k && EndsWith(nodes[p].name, 'A') ==> p in r
  {
    if k == 0 then []
    else Starts(nodes, k - 1) + (if EndsWith(nodes[k - 1].name, 'A') then [k - 1] else [])
  }

  /** All walkers stand on names ending in 'Z' after `k` steps. */
  predicate AllZAt(nodes: seq<Node>, line: string, starts: seq<nat>, k: nat)
    requires Linked(nodes) && forall i :: 0 <= i < |starts| ==> starts[i] < |nodes|
  {
    StepsDefined(line, k) &&
    forall i :: 0 <= i < |starts| ==> EndsWith(nodes[Walk(nodes, line, starts[i], k)].name, 'Z')
  }

  /** Part 2 stops when every walker is on a name ending in 'Z'. */
  function AllAtZ(nodes: seq<Node>, line: string, starts: seq<nat>): nat -> bool
    requires Linked(nodes) && forall i :: 0 <= i < |starts| ==> starts[i] < |nodes|
  {
    (k: nat) => AllZAt(nodes, line, starts, k)
  }

  /** The loop condition of `part2`: every current node's name ends in 'Z'. */
  predicate AllEndInZ(cur: seq<Node>) {
    forall i :: 0 <= i < |cur| ==> EndsWith(cur[i].name, 'Z')
  }

  /** The current nodes are where the walks have got to after `k` steps. */
  predicate Tracks(nodes: seq<Node>, line: string, starts: seq<nat>, k: nat, cur: seq<Node>)
    requires Linked(nodes) && forall i :: 0 <= i < |starts| ==> starts[i] < |nodes|
    requires StepsDefined(line, k)
  {
    |cur| == |starts| && forall i :: 0 <= i < |cur| ==> cur[i] == nodes[Walk(nodes, line, starts[i], k)]
  }

  /** The loop condition reads off the stop predicate of part 2. */
  lemma TracksAllZ(nodes: seq<Node>, line: string, starts: seq<nat>, k: nat, cur: seq<Node>)
    requires Linked(nodes) && forall i :: 0 <= i < |starts| ==> starts[i] < |nodes|
    requires StepsDefined(line, k) && Tracks(nodes, line, starts, k, cur)
    ensures AllEndInZ(cur) <==> AllZAt(nodes, line, starts, k)
  {
  }

  /** One more step of every walker of part 2, from a state where not all are on 'Z'. */
  lemma AllZStep(nodes: seq<Node>, line: string, starts: seq<nat>, k: nat, s: Step)
    requires Linked(nodes) && forall i :: 0 <= i < |starts| ==> starts[i] < |nodes|
    requires StepsDefined(line, k) && StepAt(line, k) == Some(s)
    requires forall j :: 0 <= j < k ==> !AllZAt(nodes, line, starts, j)
    requires !AllZAt(nodes, line, starts, k)
    ensures StepsDefined(line, k + 1)
    ensures forall i :: 0 <= i < |starts| ==>
      Walk(nodes, line, starts[i], k + 1) == Move(nodes[Walk(nodes, line, starts[i], k)], s)
    ensures forall j :: 0 <= j < k + 1 ==> !AllZAt(nodes, line, starts, j)
  {
    forall i | 0 <= i < |starts| {
      WalkNext(nodes, line, starts[i], k);
    }
  }

  /** How part 2's walk ends, from the facts its loop has gathered by step `k`. */
  lemma AllZOutcome(nodes: seq<Node>, line: string, starts: seq<nat>, limit: nat, k: nat, o: Outcome)
    requires Linked(nodes) && forall i :: 0 <= i < |starts| ==> starts[i] < |nodes|
    requires k <= limit && StepsDefined(line, k)
    requires forall j :: 0 <= j < k ==> !AllZAt(nodes, line, starts, j)
    requires o.Steps? ==> o.taken == k && AllZAt(nodes, line, starts, k)
    requires o.Panic? ==> k < limit && StepAt(line, k).None? && !AllZAt(nodes, line, starts, k)
    requires o.Unfinished? ==> k == limit && !AllZAt(nodes, line, starts, k)
    ensures Describes(line, AllAtZ(nodes, line, starts), limit, o)
  {
    var stop := AllAtZ(nodes, line, starts);
    assert forall j :: 0 <= j < k ==> !stop(j);
    if o.Panic? {
      assert forall j :: 0 <= j <= k ==> !stop(j);
    }
  }

  /** The `while` loop of `part2`: every walker takes the same step at once. */
  method WalkAll(nodes: seq<Node>, line: string, starts: seq<nat>, limit: nat) returns (o: Outcome)
    requires Linked(nodes) && forall i :: 0 <= i < |starts| ==> starts[i] < |nodes|
    ensures Describes(line, AllAtZ(nodes, line, starts), limit, o)
  {
    var steps := new StepCycle(line);
    var cur := seq(|starts|, i requires 0 <= i < |starts| => nodes[starts[i]]);
    var taken: nat := 0;
    while !AllEndInZ(cur)
      invariant steps.Valid() && steps.line == line
      invariant |line| > 0 ==> steps.index == Cursor(taken, |line|)
      invariant taken <= limit && StepsDefined(line, taken)
      invariant Tracks(nodes, line, starts, taken, cur)
      invariant forall j :: 0 <= j < taken ==> !AllZAt(nodes, line, starts, j)
      decreases limit - taken
    {
      TracksAllZ(nodes, line, starts, taken, cur);
      if taken == limit {
        AllZOutcome(nodes, line, starts, limit, taken, Unfinished);
        return Unfinished;
      }
      var step := steps.Next();
      assert step == StepAt(line, taken);
      if step.None? {
        AllZOutcome(nodes, line, starts, limit, taken, Panic);
        return Panic;
      }
      if |line| > 0 {
        CursorNext(taken, |line|);
      }
      AllZStep(nodes, line, starts, taken, step.value);
      taken := taken + 1;
      cur := Advance(nodes, cur, step.value);
    }
    TracksAllZ(nodes, line, starts, taken, cur);
    AllZOutcome(nodes, line, starts, limit, taken, Steps(taken));
    o := Steps(taken);
  }

  /** One step of every walker, the `par_iter().map(..)` of `part2`. */
  function Advance(nodes: seq<Node>, cur: seq<Node>, step: Step): (r: seq<Node>)
    requires Linked(nodes) && forall i :: 0 <= i < |cur| ==> cur[i].left < |nodes| && cur[i].right < |nodes|
    ensures |r| == |cur| && forall i :: 0 <= i < |cur| ==> r[i] == nodes[Move(cur[i], step)]
  {
    seq(|cur|, i requires 0 <= i < |cur| => nodes[Move(cur[i], step)])
  }

  /** `part2`. */
  method Part2(input: string, limit: nat) returns (o: Outcome)
    ensures Setup(input).None? ==> o == Panic
    ensures Setup(input).Some? ==>
      var (line, nodes) := Setup(input).value;
      Describes(line, AllAtZ(nodes, line, Starts(nodes, |nodes|)), limit, o)
  {
    var setup := Setup(input);
    if setup.None? {
      return Panic;
    }
    var (line, nodes) := setup.value;
    o := WalkAll(nodes, line, Starts(nodes, |nodes|), limit);
  }

  /** With no node ending in 'A' the walk of part 2 is over before it starts. */
  lemma NoStartsNoSteps(nodes: seq<Node>, line: string, limit: nat, o: Outcome)
    requires Linked(nodes) && forall p :: 0 <= p < |nodes| ==> !EndsWith(nodes[p].name, 'A')
    requires Describes(line, AllAtZ(nodes, line, Starts(nodes, |nodes|)), limit, o)
    ensures o == Steps(0)
  {
    var starts := Starts(nodes, |nodes|);
    assert |starts| == 0;
    var stop := AllAtZ(nodes, line, starts);
    assert stop(0);
    StopsAtOnce(line, stop, limit, o);
  }
}
