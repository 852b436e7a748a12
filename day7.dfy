/** Day 7: Camel Cards. Each line holds a hand of five cards and a bid; the hands are
    ordered by their type and then card by card, and part 1 adds up every bid times the
    1-based position of its hand in that order. */
module Day7 {
  import opened Wrappers
  import opened Text

  // ---------------------------------------------------------------- cards

  /** `Card`: `N(n)` is a numbered card; `Card::from` only builds `N(0)` .. `N(9)`. */
  datatype Card = A | K | Q | J | T | N(n: nat)

  /** The cards a hand can hold without `value` underflowing: 2 .. 9 and the faces. */
  predicate Valid(c: Card) {
    c.N? ==> 2 <= c.n <= 9
  }

  /** `Card::value`: `n - 2` for a numbered card (`None` where `u8` subtraction
      underflows), then T, J, Q, K, A as 8 .. 12. */
  function Value(c: Card): (v: Option<nat>)
    ensures Valid(c) ==> v.Some? && v.value < 13
    ensures c.N? && c.n < 2 ==> v.None?
  {
    match c
    case N(n) => if n >= 2 then Some(n - 2) else None
    case T => Some(8)
    case J => Some(9)
    case Q => Some(10)
    case K => Some(11)
    case A => Some(12)
  }

  /** The card of each value 0 .. 12, the inverse of `Value` on the valid cards. */
  function CardOf(v: nat): (c: Card)
    requires v < 13
    ensures Valid(c) && Value(c) == Some(v)
  {
    if v < 8 then N(v + 2) else [T, J, Q, K, A][v - 8]
  }

  /** `value` tells the valid cards apart. */
  lemma ValueInjective(c: Card, d: Card)
    requires Valid(c) && Valid(d) && Value(c) == Value(d)
    ensures c == d
  {
  }

  lemma CardOfValue(c: Card)
    requires Valid(c)
    ensures CardOf(Value(c).value) == c
  {
    ValueInjective(CardOf(Value(c).value), c);
  }

  /** `Card::from`: the five face letters, otherwise a decimal digit (`None` where
      `to_digit(10).unwrap()` panics). */
  function FromChar(ch: char): (r: Option<Card>)
    ensures r.Some? ==> (r.value.N? ==> r.value.n <= 9)
    ensures r.Some? <==> ch in "AKQJT" || IsDigit(ch)
  {
    match ch
    case 'A' => Some(A)
    case 'K' => Some(K)
    case 'Q' => Some(Q)
    case 'J' => Some(J)
    case 'T' => Some(T)
    case _ => if IsDigit(ch) then Some(N(DigitValue(ch))) else None
  }

  /** A decoded card is valid exactly when it is not '0' or '1'. */
  lemma FromCharValid(ch: char)
    requires FromChar(ch).Some?
    ensures Valid(FromChar(ch).value) <==> ch != '0' && ch != '1'
  {
  }

  /** `Card::cmp`: the order of `value`. */
  function CardCmp(c: Card, d: Card): Ordering
    requires Valid(c) && Valid(d)
  {
    CompareInt(Value(c).value, Value(d).value)
  }

  /** Card comparison is a total order: equal only for the same card, flipped when the
      arguments are swapped, and transitive. */
  lemma CardOrder(c: Card, d: Card, e: Card)
    requires Valid(c) && Valid(d) && Valid(e)
    ensures CardCmp(c, d) == Equal <==> c == d
    ensures CardCmp(d, c) == CardCmp(c, d).Flip()
    ensures CardCmp(c, d) != Greater && CardCmp(d, e) != Greater ==> CardCmp(c, e) != Greater
  {
    if CardCmp(c, d) == Equal {
      ValueInjective(c, d);
    }
  }

  // ---------------------------------------------------------------- hand types

  datatype HandType = HighCard | OnePair | TwoPair | ThreeOfAKind | FullHouse | FourOfAKind | FiveOfAKind

  /** The derived order of `HandType`: declaration order. */
  function TypeRank(t: HandType): nat {
    match t
    case HighCard => 0
    case OnePair => 1
    case TwoPair => 2
    case ThreeOfAKind => 3
    case FullHouse => 4
    case FourOfAKind => 5
    case FiveOfAKind => 6
  }

  predicate AllValid(cards: seq<Card>) {
    forall i :: 0 <= i < |cards| ==> Valid(cards[i])
  }

  /** How many cards of each value the hand holds, indexed by value. */
  function Counts(cards: seq<Card>): (r: seq<nat>)
    ensures |r| == 13
  {
    seq(13, v requires 0 <= v < 13 => multiset(cards)[CardOf(v)])
  }

  /** How many entries of `s` equal `x`. */
  function NumEqual(s: seq<nat>, x: nat): nat {
    if s == [] then 0 else NumEqual(s[..|s| - 1], x) + (if s[|s| - 1] == x then 1 else 0)
  }

  /** The classification of `HandType::from`, read off the counts. */
  function TypeOf(cards: seq<Card>): (r: HandType)
    ensures r != HighCard ==> exists v :: 0 <= v < 13 && Counts(cards)[v] >= 2
  {
    var counts := Counts(cards);
    var pairs := NumEqual(counts, 2);
    assert 2 !in counts ==> pairs == 0 by {
      if 2 !in counts {
        NumEqualAbsent(counts, 2);
      }
    }
    if 5 in counts then FiveOfAKind
    else if 4 in counts then FourOfAKind
    else if 3 in counts && pairs == 1 then FullHouse
    else if 3 in counts then ThreeOfAKind
    else if pairs == 2 then TwoPair
    else if pairs == 1 then OnePair
    else HighCard
  }

  /** `HandType::from`: count the cards per value in a 13-slot array, then scan the
      counts for pairs, threes, fours and fives. */
  method Classify(cards: seq<Card>) returns (t: HandType)
    requires |cards| == 5 && AllValid(cards)
    ensures t == TypeOf(cards)
  {
    var counts := new nat[13](_ => 0);
    for i := 0 to 5
      invariant forall v :: 0 <= v < 13 ==> counts[v] == multiset(cards[..i])[CardOf(v)]
    {
      var v := Value(cards[i]).value;
      CardOfValue(cards[i]);
      assert cards[..i + 1] == cards[..i] + [cards[i]];
      counts[v] := counts[v] + 1;
    }
    assert cards[..5] == cards;
    assert counts[..] == Counts(cards);
    var pairs := 0;
    var three, four, five := false, false, false;
    for j := 0 to 13
      invariant pairs == NumEqual(counts[..j], 2)
      invariant three == (3 in counts[..j])
      invariant four == (4 in counts[..j])
      invariant five == (5 in counts[..j])
    {
      assert counts[..j + 1] == counts[..j] + [counts[j]];
      var count := counts[j];
      if count == 2 {
        pairs := pairs + 1;
      } else if count == 3 {
        three := true;
      } else if count == 4 {
        four := true;
      } else if count == 5 {
        five := true;
      }
    }
    assert counts[..13] == counts[..];
    if five {
      t := FiveOfAKind;
    } else if four {
      t := FourOfAKind;
    } else if three && pairs == 1 {
      t := FullHouse;
    } else if three {
      t := ThreeOfAKind;
    } else if pairs == 2 {
      t := TwoPair;
    } else if pairs == 1 {
      t := OnePair;
    } else {
      t := HighCard;
    }
  }

  /** The type depends on which cards the hand holds, not on their order. */
  lemma TypeOfPermutation(cards: seq<Card>, other: seq<Card>)
    requires multiset(cards) == multiset(other)
    ensures TypeOf(cards) == TypeOf(other)
  {
    assert Counts(cards) == Counts(other);
  }

  lemma {:induction false} AllSame(s: seq<Card>, x: Card)
    ensures multiset(s)[x] <= |s|
    ensures multiset(s)[x] == |s| <==> forall i :: 0 <= i < |s| ==> s[i] == x
  {
    if s != [] {
      var n := |s| - 1;
      assert s == s[..n] + [s[n]];
      AllSame(s[..n], x);
    }
  }

  lemma {:induction false} AllDistinct(s: seq<Card>)
    ensures (forall i, j :: 0 <= i < j < |s| ==> s[i] != s[j]) <==> forall x :: multiset(s)[x] <= 1
  {
    if s != [] {
      var n := |s| - 1;
      assert s == s[..n] + [s[n]];
      AllDistinct(s[..n]);
      if forall x :: multiset(s)[x] <= 1 {
        forall x ensures multiset(s[..n])[x] <= 1 {
          assert multiset(s)[x] == multiset(s[..n])[x] + (if x == s[n] then 1 else 0);
        }
        forall i, j | 0 <= i < j < |s| ensures s[i] != s[j] {
          assert s[i] == s[..n][i];
          if j == n {
            assert multiset(s[..n])[s[i]] >= 1;
            assert multiset(s)[s[n]] == multiset(s[..n])[s[n]] + 1;
          } else {
            assert s[j] == s[..n][j];
          }
        }
      }
      if forall i, j :: 0 <= i < j < |s| ==> s[i] != s[j] {
        assert forall i, j :: 0 <= i < j < n ==> s[..n][i] != s[..n][j];
        forall i | 0 <= i < n ensures s[..n][i] != s[n] {
          assert s[..n][i] == s[i];
        }
        assert s[n] !in multiset(s[..n]);
      }
    }
  }

  /** Five of a kind exactly when all five cards are the same. */
  lemma FiveOfAKindIff(cards: seq<Card>)
    requires |cards| == 5 && AllValid(cards)
    ensures TypeOf(cards) == FiveOfAKind <==> forall i :: 0 <= i < 5 ==> cards[i] == cards[0]
  {
    var counts := Counts(cards);
    if 5 in counts {
      var v :| 0 <= v < 13 && counts[v] == 5;
      AllSame(cards, CardOf(v));
    }
    if forall i :: 0 <= i < 5 ==> cards[i] == cards[0] {
      AllSame(cards, cards[0]);
      CardOfValue(cards[0]);
      assert counts[Value(cards[0]).value] == 5;
    }
  }

  /** A high card exactly when the five cards are all different. */
  lemma HighCardIff(cards: seq<Card>)
    requires |cards| == 5 && AllValid(cards)
    ensures TypeOf(cards) == HighCard <==> forall i, j :: 0 <= i < j < 5 ==> cards[i] != cards[j]
  {
    var counts := Counts(cards);
    AllDistinct(cards);
    forall x ensures multiset(cards)[x] <= 5 {
      AllSame(cards, x);
    }
    if TypeOf(cards) == HighCard {
      CountsSum(cards);
      PairsBound(counts);
      assert NumEqual(counts, 2) == 0;
      forall x ensures multiset(cards)[x] <= 1 {
        if x in cards {
          var i :| 0 <= i < 5 && cards[i] == x;
          CardOfValue(x);
          assert counts[Value(x).value] == multiset(cards)[x];
          if counts[Value(x).value] == 2 {
            NumEqualFound(counts, 2, 1);
          }
        }
      }
    } else {
      var v :| 0 <= v < 13 && counts[v] >= 2;
      assert multiset(cards)[CardOf(v)] >= 2;
    }
  }

  function Total(s: seq<nat>): nat {
    if s == [] then 0 else Total(s[..|s| - 1]) + s[|s| - 1]
  }

  lemma {:induction false} TotalIncrement(s: seq<nat>, i: nat)
    requires i < |s|
    ensures Total(s[i := s[i] + 1]) == Total(s) + 1
  {
    var n := |s| - 1;
    var t := s[i := s[i] + 1];
    assert t[..n] == if i == n then s[..n] else s[..n][i := s[i] + 1];
    if i < n {
      TotalIncrement(s[..n], i);
    }
  }

  /** The counts add up to the number of cards: five for a hand. */
  lemma {:induction false} CountsSum(cards: seq<Card>)
    requires AllValid(cards)
    ensures Total(Counts(cards)) == |cards|
  {
    if cards == [] {
      assert Counts(cards) == seq(13, _ => 0);
      ZeroTotal(13);
    } else {
      var n := |cards| - 1;
      var c := cards[n];
      assert cards == cards[..n] + [c];
      CountsSum(cards[..n]);
      var before := Counts(cards[..n]);
      var v := Value(c).value;
      CardOfValue(c);
      forall w | 0 <= w < 13 ensures Counts(cards)[w] == before[v := before[v] + 1][w] {
        assert CardOf(w) == c <==> w == v;
      }
      assert Counts(cards) == before[v := before[v] + 1];
      TotalIncrement(before, v);
    }
  }

  lemma {:induction false} ZeroTotal(n: nat)
    ensures Total(seq(n, _ => 0)) == 0
  {
    if n > 0 {
      assert seq(n, _ => 0)[..n - 1] == seq(n - 1, _ => 0);
      ZeroTotal(n - 1);
    }
  }

  /** Each pair accounts for two cards. */
  lemma {:induction false} PairsBound(s: seq<nat>)
    ensures 2 * NumEqual(s, 2) <= Total(s)
  {
    if s != [] {
      PairsBound(s[..|s| - 1]);
    }
  }

  /** Without a 2 among the counts there are no pairs; with one there is at least one. */
  lemma {:induction false} NumEqualFound(s: seq<nat>, x: nat, bound: nat)
    requires bound == 1 || bound == 2
    ensures bound == 1 && x in s ==> NumEqual(s, x) >= 1
    ensures bound == 2 && NumEqual(s, x) == 0 ==> x !in s
  {
    if s != [] {
      var n := |s| - 1;
      assert s == s[..n] + [s[n]];
      NumEqualFound(s[..n], x, bound);
    }
  }

  lemma {:induction false} NumEqualAbsent(s: seq<nat>, x: nat)
    requires x !in s
    ensures NumEqual(s, x) == 0
  {
    if s != [] {
      var n := |s| - 1;
      assert s == s[..n] + [s[n]];
      NumEqualAbsent(s[..n], x);
    }
  }

  // ---------------------------------------------------------------- hands

  datatype Hand = Hand(cards: seq<Card>, handType: HandType)

  /** Five cards that `value` accepts, as every hand `Hand::from_str` builds holds. */
  predicate ValidHand(h: Hand) {
    |h.cards| == 5 && AllValid(h.cards)
  }

  /** The `fold` of `Hand::from_str`: each character is decoded into the next slot of an
      array that starts as five aces; a sixth character indexes past the array. */
  function FoldCards(s: string, cards: seq<Card>, idx: nat): Option<seq<Card>>
    requires |cards| == 5
    decreases |s|
  {
    if s == [] then Some(cards)
    else
      var card :- FromChar(s[0]);
      if idx >= 5 then None else FoldCards(s[1..], cards[idx := card], idx + 1)
  }

  /** The fold succeeds exactly when there are at most five characters and each decodes;
      the cards are then the decoded characters in order, padded with the aces. */
  lemma {:induction false} FoldCardsSpec(s: string, cards: seq<Card>, idx: nat)
    requires |cards| == 5 && idx <= 5
    ensures FoldCards(s, cards, idx).Some? <==>
      idx + |s| <= 5 && forall i :: 0 <= i < |s| ==> FromChar(s[i]).Some?
    ensures FoldCards(s, cards, idx).Some? ==>
      var r := FoldCards(s, cards, idx).value;
      |r| == 5 &&
      (forall i :: 0 <= i < idx ==> r[i] == cards[i]) &&
      (forall i :: 0 <= i < |s| ==> r[idx + i] == FromChar(s[i]).value) &&
      (forall i :: idx + |s| <= i < 5 ==> r[i] == cards[i])
    decreases |s|
  {
    if s != [] && FromChar(s[0]).Some? && idx < 5 {
      var next := cards[idx := FromChar(s[0]).value];
      FoldCardsSpec(s[1..], next, idx + 1);
      if FoldCards(s, cards, idx).Some? {
        var r := FoldCards(s, cards, idx).value;
        forall i | 0 <= i < |s| ensures r[idx + i] == FromChar(s[i]).value {
          if i > 0 {
            assert s[1..][i - 1] == s[i];
          }
        }
      }
      if !(forall i :: 0 <= i < |s[1..]| ==> FromChar(s[1..][i]).Some?) {
        var i :| 0 <= i < |s[1..]| && FromChar(s[1..][i]).None?;
        assert s[i + 1] == s[1..][i];
      }
    }
  }

  /** `Hand::from_str`, `None` where it panics: more than five characters, a character
      that is no card, or a '0' or '1' whose `value` underflows during classification. */
  function ParseHand(s: string): (r: Option<Hand>)
    ensures r.Some? ==> ValidHand(r.value) && r.value.handType == TypeOf(r.value.cards)
  {
    var cards :- FoldCards(s, [A, A, A, A, A], 0);
    if |cards| == 5 && AllValid(cards) then Some(Hand(cards, TypeOf(cards))) else None
  }

  /** A hand parses exactly when the fold succeeds with cards `value` accepts. */
  lemma ParseHandFold(s: string)
    ensures var f := FoldCards(s, [A, A, A, A, A], 0);
      ParseHand(s).Some? <==> f.Some? && AllValid(f.value)
    ensures ParseHand(s).Some? ==> ParseHand(s).value.cards == FoldCards(s, [A, A, A, A, A], 0).value
  {
    FoldCardsSpec(s, [A, A, A, A, A], 0);
  }

  /** The folded cards are all accepted exactly when the characters are. */
  lemma FoldedValid(s: string)
    requires FoldCards(s, [A, A, A, A, A], 0).Some?
    ensures AllValid(FoldCards(s, [A, A, A, A, A], 0).value) <==>
      forall i :: 0 <= i < |s| ==> s[i] in "AKQJT23456789"
  {
    FoldCardsSpec(s, [A, A, A, A, A], 0);
    var cards := FoldCards(s, [A, A, A, A, A], 0).value;
    forall i | 0 <= i < |s| ensures Valid(cards[i]) <==> s[i] in "AKQJT23456789" {
      CardChar(s[i]);
    }
    assert forall i :: |s| <= i < 5 ==> cards[i] == A;
  }

  /** A hand parses exactly when it is at most five card characters other than '0' and
      '1'; its cards are those characters in order, followed by aces. */
  lemma ParseHandSpec(s: string)
    ensures ParseHand(s).Some? <==>
      |s| <= 5 && forall i :: 0 <= i < |s| ==> s[i] in "AKQJT23456789"
    ensures ParseHand(s).Some? ==>
      (forall i :: 0 <= i < |s| ==> ParseHand(s).value.cards[i] == FromChar(s[i]).value) &&
      (forall i :: |s| <= i < 5 ==> ParseHand(s).value.cards[i] == A)
  {
    ParseHandFold(s);
    FoldCardsSpec(s, [A, A, A, A, A], 0);
    if FoldCards(s, [A, A, A, A, A], 0).Some? {
      FoldedValid(s);
    } else if |s| <= 5 && forall i :: 0 <= i < |s| ==> s[i] in "AKQJT23456789" {
      forall i | 0 <= i < |s| ensures FromChar(s[i]).Some? {
        CardChar(s[i]);
      }
    }
  }

  /** The characters that decode to a card `value` accepts. */
  lemma CardChar(ch: char)
    ensures (FromChar(ch).Some? && Valid(FromChar(ch).value)) <==> ch in "AKQJT23456789"
  {
  }

  // ---------------------------------------------------------------- ordering hands

  /** The card values of a hand, in order. */
  function Values(cards: seq<Card>): (r: seq<nat>)
    ensures |r| == |cards|
    ensures AllValid(cards) ==> forall i :: 0 <= i < |cards| ==> Some(r[i]) == Value(cards[i])
  {
    seq(|cards|, i requires 0 <= i < |cards| => Value(cards[i]).GetOr(0))
  }

  /** What hands are compared by: the type's rank, then the card values left to right. */
  function Key(h: Hand): seq<nat> {
    [TypeRank(h.handType)] + Values(h.cards)
  }

  /** Lexicographic comparison; a proper prefix comes first. */
  function LexCmp(x: seq<nat>, y: seq<nat>): Ordering {
    if x == [] then (if y == [] then Equal else Less)
    else if y == [] then Greater
    else if x[0] < y[0] then Less
    else if x[0] > y[0] then Greater
    else LexCmp(x[1..], y[1..])
  }

  function HandCmp(a: Hand, b: Hand): (o: Ordering)
    ensures a.handType != b.handType ==> o == CompareInt(TypeRank(a.handType), TypeRank(b.handType))
    ensures o == Equal ==> a.handType == b.handType
  {
    LexCmp(Key(a), Key(b))
  }

  /** `Hand::partial_cmp`: the types first; for equal types the first card that differs. */
  method CompareHands(a: Hand, b: Hand) returns (o: Ordering)
    requires ValidHand(a) && ValidHand(b)
    ensures o == HandCmp(a, b)
  {
    var typeCmp := CompareInt(TypeRank(a.handType), TypeRank(b.handType));
    if typeCmp != Equal {
      return typeCmp;
    }
    var va, vb := Values(a.cards), Values(b.cards);
    assert Key(a)[1..] == va && Key(b)[1..] == vb;
    for i := 0 to 5
      invariant HandCmp(a, b) == LexCmp(va[i..], vb[i..])
    {
      assert va[i..][1..] == va[i + 1..] && vb[i..][1..] == vb[i + 1..];
      var cardCmp := CardCmp(a.cards[i], b.cards[i]);
      if cardCmp == Greater {
        return Greater;
      } else if cardCmp == Less {
        return Less;
      }
    }
    o := Equal;
  }

  lemma {:induction false} LexOrder(x: seq<nat>, y: seq<nat>, z: seq<nat>)
    ensures LexCmp(x, y) == Equal <==> x == y
    ensures LexCmp(y, x) == LexCmp(x, y).Flip()
    ensures LexCmp(x, y) != Greater && LexCmp(y, z) != Greater ==> LexCmp(x, z) != Greater
  {
    if x != [] && y != [] {
      LexOrder(x[1..], y[1..], if z == [] then z else z[1..]);
      if x[0] == y[0] && x[1..] == y[1..] {
        assert x == [x[0]] + x[1..] && y == [y[0]] + y[1..];
      }
    }
  }

  /** Two valid hands with the same key are the same hand. */
  lemma KeyInjective(a: Hand, b: Hand)
    requires ValidHand(a) && ValidHand(b) && Key(a) == Key(b)
    ensures a == b
  {
    assert Values(a.cards) == Key(a)[1..] == Key(b)[1..] == Values(b.cards);
    forall i | 0 <= i < 5 ensures a.cards[i] == b.cards[i] {
      assert Values(a.cards)[i] == Values(b.cards)[i];
      ValueInjective(a.cards[i], b.cards[i]);
    }
    assert a.cards == b.cards;
  }

  /** Hand comparison is a total order: `Equal` only for the same hand (same type and
      same cards), flipped when the arguments are swapped, and transitive. */
  lemma HandOrder(a: Hand, b: Hand, c: Hand)
    requires ValidHand(a) && ValidHand(b) && ValidHand(c)
    ensures HandCmp(a, b) == Equal <==> a == b
    ensures HandCmp(b, a) == HandCmp(a, b).Flip()
    ensures HandCmp(a, b) != Greater && HandCmp(b, c) != Greater ==> HandCmp(a, c) != Greater
  {
    LexOrder(Key(a), Key(b), Key(c));
    if HandCmp(a, b) == Equal {
      KeyInjective(a, b);
    }
  }

  /** A hand of a higher type is greater whatever its cards. */
  lemma TypeFirst(a: Hand, b: Hand)
    requires ValidHand(a) && ValidHand(b) && TypeRank(a.handType) < TypeRank(b.handType)
    ensures HandCmp(a, b) == Less
  {
  }

  // ---------------------------------------------------------------- sorting

  type Entry = (Hand, nat)

  predicate AllValidHands(s: seq<Entry>) {
    forall i :: 0 <= i < |s| ==> ValidHand(s[i].0)
  }

  predicate Above(a: Entry, b: Entry) {
    HandCmp(a.0, b.0) == Greater
  }

  /** Insert `x` after every entry that is not greater than it, counting from the back. */
  function Insert(s: seq<Entry>, x: Entry): (r: seq<Entry>)
    ensures |r| == |s| + 1
  {
    if s == [] || !Above(s[|s| - 1], x) then s + [x]
    else
      var n := |s| - 1;
      Insert(s[..n], x) + [s[n]]
  }

  lemma {:induction false} InsertPermutation(s: seq<Entry>, x: Entry)
    ensures multiset(Insert(s, x)) == multiset(s) + multiset{x}
  {
    if s != [] && Above(s[|s| - 1], x) {
      var n := |s| - 1;
      assert s == s[..n] + [s[n]];
      InsertPermutation(s[..n], x);
    }
  }

  /** The stable sort of `hands.sort_by(|(a, _), (b, _)| a.cmp(b))`, as insertion sort. */
  function Sort(s: seq<Entry>): (r: seq<Entry>)
    ensures |r| == |s|
  {
    if s == [] then []
    else
      var n := |s| - 1;
      Insert(Sort(s[..n]), s[n])
  }

  /** Ascending: no entry is above the one after it. */
  predicate Sorted(s: seq<Entry>)
  {
    forall i :: 0 < i < |s| ==> !Above(s[i - 1], s[i])
  }

  /** The sort is a permutation. */
  lemma {:induction false} SortPermutation(s: seq<Entry>)
    ensures multiset(Sort(s)) == multiset(s)
  {
    if s != [] {
      var n := |s| - 1;
      SortPermutation(s[..n]);
      InsertPermutation(Sort(s[..n]), s[n]);
      assert s == s[..n] + [s[n]];
    }
  }

  lemma {:induction false} InsertSorted(s: seq<Entry>, x: Entry)
    requires Sorted(s)
    ensures Sorted(Insert(s, x))
  {
    if s != [] && Above(s[|s| - 1], x) {
      var n := |s| - 1;
      assert forall i :: 0 <= i < n ==> s[..n][i] == s[i];
      InsertSorted(s[..n], x);
      var init := Insert(s[..n], x);
      var r := init + [s[n]];
      assert init[n] == x || init[n] == s[n - 1];
      LexOrder(Key(s[n].0), Key(x.0), Key(x.0));
      assert !Above(init[n], s[n]);
      assert forall i :: 0 <= i < n + 1 ==> r[i] == init[i];
    }
  }

  /** Adjacent order extends to every pair, by transitivity. */
  lemma {:induction false} SortedPairs(s: seq<Entry>, i: nat, j: nat)
    requires Sorted(s) && i < j < |s|
    ensures HandCmp(s[i].0, s[j].0) != Greater
    decreases j - i
  {
    if i + 1 < j {
      SortedPairs(s, i + 1, j);
      LexOrder(Key(s[i].0), Key(s[i + 1].0), Key(s[j].0));
    }
  }

  /** The sort orders the hands ascending. */
  lemma {:induction false} SortSorted(s: seq<Entry>)
    ensures Sorted(Sort(s))
    ensures forall i, j :: 0 <= i < j < |s| ==> HandCmp(Sort(s)[i].0, Sort(s)[j].0) != Greater
  {
    if s != [] {
      var n := |s| - 1;
      SortSorted(s[..n]);
      InsertSorted(Sort(s[..n]), s[n]);
    }
    forall i, j | 0 <= i < j < |s| ensures HandCmp(Sort(s)[i].0, Sort(s)[j].0) != Greater {
      SortedPairs(Sort(s), i, j);
    }
  }

  /** The entries holding hand `h`, in order. */
  function WithHand(s: seq<Entry>, h: Hand): seq<Entry> {
    if s == [] then []
    else
      var n := |s| - 1;
      WithHand(s[..n], h) + (if s[n].0 == h then [s[n]] else [])
  }

  lemma {:induction false} InsertStable(s: seq<Entry>, x: Entry, h: Hand)
    ensures WithHand(Insert(s, x), h) == WithHand(s, h) + (if x.0 == h then [x] else [])
  {
    if s != [] && Above(s[|s| - 1], x) {
      var n := |s| - 1;
      InsertStable(s[..n], x, h);
      LexOrder(Key(s[n].0), Key(x.0), Key(x.0));
      var r := Insert(s, x);
      assert r[..|r| - 1] == Insert(s[..n], x);
    } else {
      var r := s + [x];
      assert r[..|r| - 1] == s;
    }
  }

  /** The sort is stable: the entries with equal hands keep their input order. */
  lemma {:induction false} SortStable(s: seq<Entry>, h: Hand)
    ensures WithHand(Sort(s), h) == WithHand(s, h)
  {
    if s != [] {
      var n := |s| - 1;
      SortStable(s[..n], h);
      InsertStable(Sort(s[..n]), s[n], h);
    }
  }

  /** `Insert` on a sequence whose tail from `j` is greater than `x` places `x` at `j`. */
  lemma {:induction false} InsertAt(s: seq<Entry>, x: Entry, j: nat)
    requires j <= |s|
    requires forall k :: j <= k < |s| ==> Above(s[k], x)
    ensures Insert(s, x) == Insert(s[..j], x) + s[j..]
    decreases |s| - j
  {
    if j < |s| {
      var n := |s| - 1;
      assert s[..n][..j] == s[..j];
      InsertAt(s[..n], x, j);
      assert s[..n][j..] + [s[n]] == s[j..];
    } else {
      assert s[..j] == s;
    }
  }

  /** The state of the shifting loop of `InsertEntry`: the first `j` entries untouched, the
      next stretch moved up by one, the entries after `i` untouched, and everything moved
      greater than `key`. */
  ghost predicate Shifting(cur: seq<Entry>, sorted: seq<Entry>, rest: seq<Entry>, key: Entry, i: nat, j: nat) {
    && j <= i == |sorted| && |cur| == i + 1 + |rest|
    && cur[..j] == sorted[..j]
    && cur[j + 1..i + 1] == sorted[j..i]
    && cur[i + 1..] == rest
    && forall k :: j <= k < i ==> Above(sorted[k], key)
  }

  /** Moving entry `j - 1` up by one keeps the shifting state, one place lower. */
  lemma ShiftStep(cur: seq<Entry>, sorted: seq<Entry>, rest: seq<Entry>, key: Entry, i: nat, j: nat)
    requires Shifting(cur, sorted, rest, key, i, j) && 0 < j && Above(cur[j - 1], key)
    ensures Shifting(cur[j := cur[j - 1]], sorted, rest, key, i, j - 1)
  {
    var next := cur[j := cur[j - 1]];
    assert cur[j - 1] == sorted[j - 1];
    assert next[..j - 1] == cur[..j - 1];
    assert next[j..i + 1] == [sorted[j - 1]] + cur[j + 1..i + 1];
    assert sorted[j - 1..i] == [sorted[j - 1]] + sorted[j..i];
  }

  /** Dropping `key` into the gap finishes the insertion. */
  lemma ShiftDone(cur: seq<Entry>, sorted: seq<Entry>, rest: seq<Entry>, key: Entry, i: nat, j: nat)
    requires Shifting(cur, sorted, rest, key, i, j)
    requires j == 0 || !Above(cur[j - 1], key)
    ensures cur[j := key][..i + 1] == Insert(sorted, key)
    ensures cur[j := key][i + 1..] == rest
  {
    var done := cur[j := key];
    InsertAt(sorted, key, j);
    assert Insert(sorted[..j], key) == sorted[..j] + [key] by {
      if j > 0 {
        assert sorted[..j][j - 1] == cur[j - 1];
      }
    }
    assert done[..i + 1] == done[..j] + [key] + done[j + 1..i + 1];
  }

  /** One step of the sort: entry `i` moves down past the entries above it. */
  method InsertEntry(a: array<Entry>, i: nat)
    requires i < a.Length
    modifies a
    ensures a[..i + 1] == Insert(old(a[..i]), old(a[i]))
    ensures a[i + 1..] == old(a[i + 1..])
  {
    ghost var sorted := a[..i];
    ghost var rest := a[i + 1..];
    var key := a[i];
    var j := i;
    assert a[..] == a[..i] + [key] + rest;
    while j > 0 && Above(a[j - 1], key)
      invariant Shifting(a[..], sorted, rest, key, i, j)
    {
      ghost var cur := a[..];
      ShiftStep(cur, sorted, rest, key, i, j);
      a[j] := a[j - 1];
      assert a[..] == cur[j := cur[j - 1]];
      j := j - 1;
    }
    ghost var cur := a[..];
    ShiftDone(cur, sorted, rest, key, i, j);
    a[j] := key;
    assert a[..] == cur[j := key];
  }

  /** `sort_by` in place on the vector of entries. */
  method SortEntries(a: array<Entry>)
    modifies a
    ensures a[..] == Sort(old(a[..]))
  {
    ghost var s := a[..];
    for i := 0 to a.Length
      invariant a[..i] == Sort(s[..i])
      invariant a[i..] == s[i..]
    {
      InsertEntry(a, i);
      assert s[..i + 1][..i] == s[..i];
    }
    assert a[..] == a[..a.Length] && s[..a.Length] == s;
  }

  // ---------------------------------------------------------------- part 1

  /** `parse` of one line: the hand before the first ' ', the bid after it. */
  function ParseLine(line: string): (r: Option<Entry>)
    ensures r.Some? ==> ValidHand(r.value.0)
  {
    var parts := SplitOn(line, " ");
    var hand :- ParseHand(parts[0]);
    var bid :- Nth(parts, 1);
    var value :- ParseNat(bid);
    Some((hand, value))
  }

  /** `parse`: one entry per line, in order. */
  function Parse(lines: seq<string>): (r: Option<seq<Entry>>)
    ensures r.Some? ==> |r.value| == |lines| && AllValidHands(r.value)
    ensures r.Some? ==> forall k :: 0 <= k < |lines| ==> ParseLine(lines[k]) == Some(r.value[k])
  {
    ParseEachSpec(lines, ParseLine);
    ParseEach(lines, ParseLine)
  }

  /** Every bid times the 1-based position of its entry. */
  function Winnings(s: seq<Entry>): nat {
    if s == [] then 0 else Winnings(s[..|s| - 1]) + s[|s| - 1].1 * |s|
  }

  function Part1Spec(input: string): Option<nat> {
    var entries :- Parse(Lines(input));
    Some(Winnings(Sort(entries)))
  }

  /** Part 1 adds up, over the stably sorted entries, each bid times its position. */
  lemma Part1Meaning(input: string)
    requires Parse(Lines(input)).Some?
    ensures var s := Sort(Parse(Lines(input)).value);
      Sorted(s) && multiset(s) == multiset(Parse(Lines(input)).value) &&
      Part1Spec(input) == Some(Winnings(s))
  {
    SortSorted(Parse(Lines(input)).value);
    SortPermutation(Parse(Lines(input)).value);
  }

  /** The `enumerate().fold` of `part1`. */
  method TotalWinnings(a: array<Entry>) returns (total: nat)
    ensures total == Winnings(a[..])
  {
    total := 0;
    for i := 0 to a.Length
      invariant total == Winnings(a[..i])
    {
      assert a[..i + 1][..i] == a[..i];
      total := total + a[i].1 * (i + 1);
    }
    assert a[..a.Length] == a[..];
  }

  /** `part1`. */
  method Part1(input: string) returns (r: Option<nat>)
    ensures r == Part1Spec(input)
  {
    var parsed := Parse(Lines(input));
    if parsed.None? {
      return None;
    }
    var entries := parsed.value;
    var a := new Entry[|entries|](i requires 0 <= i < |entries| => entries[i]);
    assert a[..] == entries;
    SortEntries(a);
    var total := TotalWinnings(a);
    r := Some(total);
  }
}
