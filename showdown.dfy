/** Seven cards from one deck, as at the showdown of src/components/PokerGame.tsx: no
    value occurs more than four times, and the length of the tie-break list is fixed by the
    category, so two results of the same category have equally long lists. */
module Showdown {
  import opened Cards
  import opened HandEval
  import opened Straights
  import opened HandFacts
  import opened TieBreaks

  /** The pool consists of cards of one standard deck, none of them twice. */
  predicate FromOneDeck(pool: seq<Card>) {
    multiset(pool) <= multiset(CreateDeck())
  }

  /** Cards of one deck have known ranks and occur once each. */
  lemma FromOneDeckCards(pool: seq<Card>)
    requires FromOneDeck(pool)
    ensures RanksKnown(pool)
    ensures forall c :: multiset(pool)[c] <= 1
    ensures forall c :: c in pool ==> IsDeckCard(c)
  {
    CreateDeckSpec();
    RankValuesTable();
    forall c | c in pool ensures IsDeckCard(c) {
      assert multiset(pool)[c] <= multiset(CreateDeck())[c];
    }
  }

  // ---------------------------------------------------------------------------------------
  // Counting values

  /** The total count, in `vals`, of the values listed in `ws`. */
  function CountSum(ws: seq<int>, vals: seq<int>): nat {
    if ws == [] then 0 else multiset(vals)[ws[0]] + CountSum(ws[1..], vals)
  }

  /** One more element adds one to the total exactly when it is listed. */
  lemma {:induction false} CountSumStep(ws: seq<int>, y: int, t: seq<int>)
    requires StrictlyDescending(ws)
    ensures CountSum(ws, [y] + t) == CountSum(ws, t) + if y in ws then 1 else 0
  {
    if ws != [] {
      TailBelowHead(ws);
      CountSumStep(ws[1..], y, t);
      assert multiset([y] + t) == multiset{y} + multiset(t);
      assert y in ws <==> y == ws[0] || y in ws[1..];
    }
  }

  /** When every value is `x` or listed in `ws` (and `x` is not), the counts of the listed
      values and of `x` add up to the length. */
  lemma {:induction false} CountSumCover(ws: seq<int>, vals: seq<int>, x: int)
    requires StrictlyDescending(ws) && x !in ws
    requires forall w :: w in vals ==> w == x || w in ws
    ensures CountSum(ws, vals) + multiset(vals)[x] == |vals|
  {
    if vals == [] {
      CountSumEmpty(ws);
    } else {
      var t := vals[1..];
      assert vals == [vals[0]] + t;
      assert forall w :: w in t ==> w in vals;
      CountSumCover(ws, t, x);
      CountSumStep(ws, vals[0], t);
      assert multiset(vals) == multiset{vals[0]} + multiset(t);
      assert vals[0] in vals;
    }
  }

  /** Nothing is counted in an empty sequence. */
  lemma {:induction false} CountSumEmpty(ws: seq<int>)
    ensures CountSum(ws, []) == 0
  {
    if ws != [] {
      CountSumEmpty(ws[1..]);
    }
  }

  /** When each listed value occurs at most `c` times, the total is at most `c` per value. */
  lemma {:induction false} CountSumBound(ws: seq<int>, vals: seq<int>, c: nat)
    requires forall i :: 0 <= i < |ws| ==> multiset(vals)[ws[i]] <= c
    ensures CountSum(ws, vals) <= c * |ws|
  {
    if ws == [] {
      assert c * |ws| == c * 0 == 0;
    } else {
      var n := |ws[1..]|;
      var m := multiset(vals)[ws[0]];
      assert m <= c;
      forall i | 0 <= i < n ensures multiset(vals)[ws[1..][i]] <= c {
        assert ws[1..][i] == ws[i + 1];
      }
      CountSumBound(ws[1..], vals, c);
      var rest := CountSum(ws[1..], vals);
      assert CountSum(ws, vals) == m + rest;
      assert c * |ws| == c * (n + 1) == c + c * n;
    }
  }

  /** At least `(|vals| - count(x)) / c` distinct values other than `x` occur, when each of
      them occurs at most `c` times. */
  lemma OthersAtLeast(vals: seq<int>, x: int, c: nat)
    requires forall w :: w in vals && w != x ==> multiset(vals)[w] <= c
    ensures |vals| - multiset(vals)[x] <= c * |Without(UniqueValues(vals), x)|
  {
    var ws := Without(UniqueValues(vals), x);
    CountSumCover(ws, vals, x);
    forall i | 0 <= i < |ws| ensures multiset(vals)[ws[i]] <= c {
      assert ws[i] in ws;
    }
    CountSumBound(ws, vals, c);
  }

  /** The values of a pool are its first card's value followed by the rest's values. */
  lemma ValuesOfCons(pool: seq<Card>)
    requires RanksKnown(pool) && pool != []
    ensures RanksKnown(pool[1..])
    ensures multiset(ValuesOf(pool)) == multiset{Value(pool[0])} + multiset(ValuesOf(pool[1..]))
  {
    assert forall c :: c in pool[1..] ==> c in pool;
    assert ValuesOf(pool) == [Value(pool[0])] + ValuesOf(pool[1..]);
  }

  /** The cards of one deck with value `v` lie in `s`: then there are at most `|s|` of them. */
  lemma {:induction false} ValueCountBound(pool: seq<Card>, v: int, s: set<Card>)
    requires RanksKnown(pool) && forall c :: multiset(pool)[c] <= 1
    requires forall c :: c in pool && Value(c) == v ==> c in s
    ensures multiset(ValuesOf(pool))[v] <= |s|
  {
    if pool == [] {
      assert ValuesOf(pool) == [];
    } else {
      var a, t := pool[0], pool[1..];
      ValuesOfCons(pool);
      assert pool == [a] + t;
      assert multiset(pool) == multiset{a} + multiset(t);
      forall c ensures multiset(t)[c] <= 1 {
        assert multiset(pool)[c] <= 1;
      }
      if Value(a) == v {
        assert multiset(pool)[a] <= 1;
        assert a !in t;
        forall c | c in t && Value(c) == v ensures c in s - {a} {
          assert c in pool;
        }
        ValueCountBound(t, v, s - {a});
      } else {
        forall c | c in t && Value(c) == v ensures c in s {
          assert c in pool;
        }
        ValueCountBound(t, v, s);
      }
    }
  }

  /** No value occurs more than four times among cards of one deck. */
  lemma AtMostFourOfAValue(pool: seq<Card>, v: int)
    requires FromOneDeck(pool)
    ensures RanksKnown(pool) && multiset(ValuesOf(pool))[v] <= 4
  {
    FromOneDeckCards(pool);
    var vals := ValuesOf(pool);
    if v in vals {
      var i :| 0 <= i < |vals| && vals[i] == v;
      var r := pool[i].rank;
      var s := {Card("♠", r), Card("♥", r), Card("♦", r), Card("♣", r)};
      forall c | c in pool && Value(c) == v ensures c in s {
        RankValuesInjective(c.rank, r);
      }
      ValueCountBound(pool, v, s);
    }
  }

  // ---------------------------------------------------------------------------------------
  // Lengths of the tie-break lists

  /** In seven cards from one deck, the length of the tie-break list depends only on the
      category. */
  lemma ShowdownValuesLength(pool: seq<Card>)
    requires |pool| == 7 && FromOneDeck(pool)
    ensures EvaluablePool(pool)
    ensures |Evaluate(pool).values| == ShowdownLength(Evaluate(pool).score)
  {
    FromOneDeckCards(pool);
    var r := Evaluate(pool);
    var vals := ValuesOf(pool);
    var u := UniqueValues(vals);
    EvaluateCategory(pool);
    forall w ensures multiset(vals)[w] <= 4 {
      AtMostFourOfAValue(pool, w);
    }
    if r.score == 8 || r.score == 4 {
      StraightValues(pool);
    } else if r.score == 7 {
      var four, kicker := FourOfAKindValues(pool);
    } else if r.score == 6 {
      var three, pair := FullHouseValues(pool);
    } else if r.score == 5 {
      var suit := FlushValuesOf(pool);
      FlushValuesTop(pool, suit);
    } else if r.score == 3 {
      ThreeOfAKindLength(pool);
    } else if r.score == 2 {
      var high, low, kicker := TwoPairValues(pool);
    } else if r.score == 1 {
      OnePairLength(pool);
    } else {
      HighCardLength(pool);
    }
  }

  /** In any pool the evaluator accepts, the tie-break list is at most as long as in a
      seven-card pool, and exactly as long for Straight Flush, Four of a Kind, Full House,
      Flush, Straight and Two Pair. */
  lemma ValuesLengthBound(pool: seq<Card>)
    requires EvaluablePool(pool)
    ensures |Evaluate(pool).values| <= ShowdownLength(Evaluate(pool).score)
    ensures Evaluate(pool).score !in {3, 1, 0} ==>
              |Evaluate(pool).values| == ShowdownLength(Evaluate(pool).score)
  {
    var r := Evaluate(pool);
    if r.score == 8 || r.score == 4 {
      StraightValues(pool);
    } else if r.score == 7 {
      var four, kicker := FourOfAKindValues(pool);
    } else if r.score == 6 {
      var three, pair := FullHouseValues(pool);
    } else if r.score == 5 {
      var suit := FlushValuesOf(pool);
      FlushValuesTop(pool, suit);
    } else if r.score == 3 {
      var three, kickers := ThreeOfAKindValues(pool);
    } else if r.score == 2 {
      var high, low, kicker := TwoPairValues(pool);
    } else if r.score == 1 {
      var pair, kickers := OnePairValues(pool);
    } else {
      HighCardValues(pool);
    }
  }

  /** Three of a Kind in seven cards: the four other cards, in groups of one or three, show
      at least two other values. */
  lemma ThreeOfAKindLength(pool: seq<Card>)
    requires |pool| == 7 && FromOneDeck(pool) && RanksKnown(pool) && SuitsKnown(pool) && Evaluate(pool).score == 3
    ensures |Evaluate(pool).values| == 3
  {
    var vals := ValuesOf(pool);
    var u := UniqueValues(vals);
    EvaluateCategory(pool);
    EvaluateBelowFullHouse(pool);
    var three := FindCount(u, vals, 3).value;
    forall w | w in vals && w != three ensures multiset(vals)[w] <= 3 {
      AtMostFourOfAValue(pool, w);
    }
    OthersAtLeast(vals, three, 3);
  }

  /** One Pair in seven cards: the five other cards all have different values. */
  lemma OnePairLength(pool: seq<Card>)
    requires |pool| == 7 && FromOneDeck(pool) && RanksKnown(pool) && SuitsKnown(pool) && Evaluate(pool).score == 1
    ensures |Evaluate(pool).values| == 4
  {
    var vals := ValuesOf(pool);
    OnePairBranch(pool);
    var pairs := WithCount(UniqueValues(vals), vals, 2);
    var pair := pairs[0];
    assert pairs == [pair];
    EvaluateCategory(pool);
    CategoryOne(pool);
    forall w ensures multiset(vals)[w] <= 4 {
      AtMostFourOfAValue(pool, w);
    }
    OnePairOthers(vals, pair);
  }

  /** The reference category 1 means no value occurs three or four times. */
  lemma CategoryOne(pool: seq<Card>)
    requires RanksKnown(pool) && Category(pool) == 1
    ensures !HasCount(ValuesOf(pool), 3) && !HasCount(ValuesOf(pool), 4)
  {
  }

  /** With one pair among seven values and no value more often, five other values remain. */
  lemma OnePairOthers(vals: seq<int>, pair: int)
    requires |vals| == 7 && WithCount(UniqueValues(vals), vals, 2) == [pair]
    requires !HasCount(vals, 3) && !HasCount(vals, 4) && forall w :: multiset(vals)[w] <= 4
    ensures |Without(UniqueValues(vals), pair)| >= 5
  {
    InWithCount(vals, 2, pair);
    forall w | w in vals && w != pair ensures multiset(vals)[w] <= 1 {
      InWithCount(vals, 2, w);
    }
    OthersAtLeast(vals, pair, 1);
  }

  /** High Card in seven cards: all seven values differ. */
  lemma HighCardLength(pool: seq<Card>)
    requires |pool| == 7 && FromOneDeck(pool) && RanksKnown(pool) && SuitsKnown(pool) && Evaluate(pool).score == 0
    ensures |Evaluate(pool).values| == 5
  {
    HighCardDistinct(pool);
    DistinctValuesCount(ValuesOf(pool));
    EvaluateBelowThree(pool);
  }

  /** A High Card pool of cards from one deck holds no value twice. */
  lemma HighCardDistinct(pool: seq<Card>)
    requires EvaluablePool(pool) && FromOneDeck(pool) && Evaluate(pool).score == 0
    ensures 0 !in ValuesOf(pool)
    ensures forall w :: w in ValuesOf(pool) ==> multiset(ValuesOf(pool))[w] <= 1
  {
    EvaluateCategory(pool);
    CategoryZero(pool);
    forall w ensures multiset(ValuesOf(pool))[w] <= 4 {
      AtMostFourOfAValue(pool, w);
    }
    NoRepeatedValue(ValuesOf(pool));
  }

  /** The reference category 0 means no value occurs two, three or four times. */
  lemma CategoryZero(pool: seq<Card>)
    requires RanksKnown(pool) && Category(pool) == 0
    ensures !HasCount(ValuesOf(pool), 2) && !HasCount(ValuesOf(pool), 3) && !HasCount(ValuesOf(pool), 4)
  {
  }

  /** With no value occurring two to four times and none more, every value occurs once. */
  lemma NoRepeatedValue(vals: seq<int>)
    requires !HasCount(vals, 2) && !HasCount(vals, 3) && !HasCount(vals, 4)
    requires forall w :: multiset(vals)[w] <= 4
    ensures forall w :: w in vals ==> multiset(vals)[w] <= 1
  {
  }

  /** Values that each occur once give as many distinct values. */
  lemma DistinctValuesCount(vals: seq<int>)
    requires 0 !in vals && forall w :: w in vals ==> multiset(vals)[w] <= 1
    ensures |UniqueValues(vals)| >= |vals|
  {
    OthersAtLeast(vals, 0, 1);
    assert Without(UniqueValues(vals), 0) == UniqueValues(vals) by {
      assert forall w :: w in Without(UniqueValues(vals), 0) <==> w in UniqueValues(vals);
      DescendingSameElements(Without(UniqueValues(vals), 0), UniqueValues(vals));
    }
  }

  /** Two strictly descending sequences with the same elements are equal. */
  lemma {:induction false} DescendingSameElements(a: seq<int>, b: seq<int>)
    requires StrictlyDescending(a) && StrictlyDescending(b)
    requires forall w :: w in a <==> w in b
    ensures a == b
  {
    if a == [] {
      if b != [] {
        HeadIn(b);
      }
    } else if b == [] {
      HeadIn(a);
    } else {
      TailBelowHead(a);
      TailBelowHead(b);
      assert a[0] in b && b[0] in a;
      assert a[0] == b[0];
      forall w ensures w in a[1..] <==> w in b[1..] {
        assert w in a <==> w == a[0] || w in a[1..];
        assert w in b <==> w == b[0] || w in b[1..];
      }
      DescendingSameElements(a[1..], b[1..]);
      assert a == [a[0]] + a[1..] && b == [b[0]] + b[1..];
    }
  }

  /** The head of a non-empty sequence is in it. */
  lemma HeadIn(s: seq<int>)
    requires s != []
    ensures s[0] in s
  {
  }
}
