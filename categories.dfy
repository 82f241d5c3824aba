/** What `evaluateHand` (src/components/PokerGame.tsx) decides, stated without its
    filter/find chains: the category is the first of the source's checks that holds of the
    pool, and its tie-break values are the highest values the category singles out. */
module HandFacts {
  import opened Cards
  import opened HandEval
  import opened Straights

  // ---------------------------------------------------------------------------------------
  // A reference definition of the category

  /** Some suit has five or more cards. */
  predicate HasFlush(pool: seq<Card>) {
    exists c :: c in pool && SuitCount(pool, c.suit) >= 5
  }

  /** Some value occurs exactly `k` times. */
  predicate HasCount(vals: seq<int>, k: int) {
    exists v :: v in vals && multiset(vals)[v] == k
  }

  /** Two different values occur exactly twice each. */
  predicate HasTwoPairs(vals: seq<int>) {
    exists a, b :: a in vals && b in vals && a != b && multiset(vals)[a] == 2 && multiset(vals)[b] == 2
  }

  /** The category score by the source's precedence: the first test that holds wins. */
  function Category(pool: seq<Card>): (score: int)
    requires RanksKnown(pool)
    ensures 0 <= score <= 8
  {
    var vals := ValuesOf(pool);
    if HasStraight(vals) && HasFlush(pool) then 8
    else if HasCount(vals, 4) then 7
    else if HasCount(vals, 3) && HasCount(vals, 2) then 6
    else if HasFlush(pool) then 5
    else if HasStraight(vals) then 4
    else if HasCount(vals, 3) then 3
    else if HasTwoPairs(vals) then 2
    else if HasCount(vals, 2) then 1
    else 0
  }

  /** The flush test of the source agrees with the reference. */
  lemma FlushSuitAgrees(pool: seq<Card>)
    ensures FlushSuit(pool).Some? <==> HasFlush(pool)
  {
    var f := FlushSuit(pool);
    if f.Some? {
      var cs := SuitCards(pool, f.value);
      assert cs[0] in cs;
    }
  }

  /** On cards of the deck's suits, a suit found is one of the four suit symbols, a
      non-empty string, so `isFlush = !!flushSuit` is exactly "a suit was found". */
  lemma FlushSuitTruthy(pool: seq<Card>)
    requires SuitsKnown(pool)
    ensures FlushSuit(pool).Some? ==> FlushSuit(pool).value in SUITS && FlushSuit(pool).value != ""
  {
    var f := FlushSuit(pool);
    if f.Some? {
      var cs := SuitCards(pool, f.value);
      assert cs[0] in cs;
    }
  }

  /** `groups.find(v => rankCounts[v] === k)` finds a value exactly when one occurs `k`
      times. */
  lemma FindCountAgrees(vals: seq<int>, k: int)
    ensures FindCount(UniqueValues(vals), vals, k).Some? <==> HasCount(vals, k)
  {
  }

  /** A descending list of exactly the values that occur twice is non-empty exactly when
      some value occurs twice, and holds two or more values exactly when two values do. */
  lemma PairListAgrees(pairs: seq<int>, vals: seq<int>)
    requires StrictlyDescending(pairs)
    requires forall w :: w in pairs <==> w in vals && multiset(vals)[w] == 2
    ensures |pairs| > 0 <==> HasCount(vals, 2)
    ensures |pairs| >= 2 <==> HasTwoPairs(vals)
  {
    if |pairs| > 0 {
      assert pairs[0] in pairs;
    }
    if |pairs| >= 2 {
      assert pairs[0] in pairs && pairs[1] in pairs;
    }
    if HasTwoPairs(vals) {
      var a, b :| a in vals && b in vals && a != b && multiset(vals)[a] == 2 && multiset(vals)[b] == 2;
      assert a in pairs && b in pairs;
    }
  }

  /** The list of pairs is non-empty exactly when some value occurs twice, and holds two or
      more values exactly when two values do. */
  lemma PairsAgree(vals: seq<int>)
    ensures |WithCount(UniqueValues(vals), vals, 2)| > 0 <==> HasCount(vals, 2)
    ensures |WithCount(UniqueValues(vals), vals, 2)| >= 2 <==> HasTwoPairs(vals)
  {
    PairListAgrees(WithCount(UniqueValues(vals), vals, 2), vals);
  }

  /** The score `evaluateHand` reports is the reference category, with its name. */
  lemma EvaluateCategory(pool: seq<Card>)
    requires EvaluablePool(pool)
    ensures Evaluate(pool).score == Category(pool)
    ensures Evaluate(pool).name == CategoryName(Category(pool))
  {
    var vals := ValuesOf(pool);
    StraightOfSpec(vals);
    FlushSuitAgrees(pool);
    FindCountAgrees(vals, 4);
    FindCountAgrees(vals, 3);
    PairsAgree(vals);
  }

  /** Two values make no straight, no three or four of a kind and no two pairs. */
  lemma TwoValues(vals: seq<int>)
    requires |vals| == 2
    ensures !HasStraight(vals) && !HasCount(vals, 4) && !HasCount(vals, 3) && !HasTwoPairs(vals)
  {
    assert !HasStraight(vals) by {
      assert forall x :: x in vals <==> x == vals[0] || x == vals[1];
    }
    forall v ensures multiset(vals)[v] <= 2 {
      CountsAtMostLength(vals, v, v);
    }
    if HasTwoPairs(vals) {
      var a, b :| a in vals && b in vals && a != b && multiset(vals)[a] == 2 && multiset(vals)[b] == 2;
      CountsAtMostLength(vals, a, b);
    }
  }

  /** Fewer than five cards make no flush. */
  lemma ShortPoolNoFlush(pool: seq<Card>)
    requires |pool| < 5
    ensures !HasFlush(pool)
  {
  }

  /** With only the two hole cards, before any community card is dealt, the best the
      evaluator can report is One Pair. */
  lemma HoleCardsOnly(pool: seq<Card>)
    requires RanksKnown(pool) && SuitsKnown(pool) && |pool| == 2
    ensures EvaluablePool(pool) && Evaluate(pool).score <= 1
  {
    EvaluateCategory(pool);
    TwoValues(ValuesOf(pool));
    ShortPoolNoFlush(pool);
  }
}
