/** The tie-break values of `evaluateHand` (src/components/PokerGame.tsx), category by
    category: each list is made of the highest values the category singles out. */
module TieBreaks {
  import opened Cards
  import opened HandEval
  import opened Straights
  import opened HandFacts

  /** The distinct values of `vals` that are not in `xs`. */
  function Outside(vals: seq<int>, xs: seq<int>): set<int> {
    set w | w in vals && w !in xs
  }

  /** The values occurring exactly `k` times. */
  function WithCountSet(vals: seq<int>, k: int): set<int> {
    set w | w in vals && multiset(vals)[w] == k
  }

  /** `ks` lists the highest `n` values of `e` (all of `e` if it has fewer), highest first. */
  predicate TopOf(ks: seq<int>, e: set<int>, n: nat) {
    StrictlyDescending(ks) && |ks| <= n
    && (forall w :: w in ks ==> w in e)
    && (forall w :: w in e && w !in ks ==> |ks| == n && (0 < n ==> w < ks[n - 1]))
  }

  /** The first `n` elements of a strictly descending listing of `e` are its top `n`. */
  lemma TakeTop(ks: seq<int>, e: set<int>, n: nat)
    requires StrictlyDescending(ks)
    requires forall w :: w in ks <==> w in e
    ensures TopOf(Take(ks, n), e, n)
  {
    if n < |ks| {
      var t := ks[..n];
      forall w | w in e && w !in t ensures 0 < n ==> w < t[n - 1] {
        var j :| 0 <= j < |ks| && ks[j] == w;
        if 0 < n <= j {
          assert t[n - 1] == ks[n - 1];
        }
      }
    }
  }

  /** `uniqueValues.filter(v => v !== x).slice(0, n)` lists the top `n` values other than `x`. */
  lemma WithoutTop(vals: seq<int>, x: int, n: nat)
    ensures TopOf(Take(Without(UniqueValues(vals), x), n), Outside(vals, [x]), n)
  {
    TakeTop(Without(UniqueValues(vals), x), Outside(vals, [x]), n);
  }

  /** `groups.find(v => rankCounts[v] === k)` is the highest value occurring `k` times. */
  lemma FindCountTop(vals: seq<int>, k: int)
    requires FindCount(UniqueValues(vals), vals, k).Some?
    ensures TopOf([FindCount(UniqueValues(vals), vals, k).value], WithCountSet(vals, k), 1)
  {
  }

  /** `groups.filter(v => rankCounts[v] === k).slice(0, n)` lists the top `n` values
      occurring `k` times. */
  lemma WithCountTop(vals: seq<int>, k: int, n: nat)
    ensures TopOf(Take(WithCount(UniqueValues(vals), vals, k), n), WithCountSet(vals, k), n)
  {
    TakeTop(WithCount(UniqueValues(vals), vals, k), WithCountSet(vals, k), n);
  }

  /** `uniqueValues.find(v => !xs.includes(v))` is the highest value outside `xs`. */
  lemma FirstOutsideTop(vals: seq<int>, xs: seq<int>)
    requires FirstOutside(UniqueValues(vals), xs).Some?
    ensures TopOf([FirstOutside(UniqueValues(vals), xs).value], Outside(vals, xs), 1)
  {
  }

  // ---------------------------------------------------------------------------------------
  // Per category

  /** The branch of `evaluateHand` that returns Four of a Kind. */
  lemma EvaluateFour(pool: seq<Card>) returns (four: int)
    requires EvaluablePool(pool) && Evaluate(pool).score == 7
    ensures FindCount(UniqueValues(ValuesOf(pool)), ValuesOf(pool), 4) == Some(four)
    ensures Evaluate(pool) == FourOfAKind(ValuesOf(pool), UniqueValues(ValuesOf(pool)), four)
  {
    var vals := ValuesOf(pool);
    var u := UniqueValues(vals);
    var st := StraightOf(u);
    var f := FindCount(u, vals, 4);
    assert Evaluate(pool) == Classify(pool, st.Some?, if st.Some? then st.value else []);
    four := f.value;
  }

  /** A quad in five or more cards leaves another value for the kicker. */
  lemma QuadKickerExists(vals: seq<int>, four: int)
    requires |vals| != 4 && multiset(vals)[four] == 4
    ensures |Without(UniqueValues(vals), four)| > 0
  {
    CountsAtMostLength(vals, four, four);
    ThirdValueExists(vals, four, four);
    var w :| w in vals && w != four;
    assert w in Without(UniqueValues(vals), four);
  }

  /** The Four of a Kind branch lists the quad's value and then the highest other value. */
  lemma FourOfAKindTop(vals: seq<int>, four: int) returns (kicker: int)
    requires |vals| != 4 && FindCount(UniqueValues(vals), vals, 4) == Some(four)
    ensures FourOfAKind(vals, UniqueValues(vals), four).values == [four, kicker]
    ensures TopOf([kicker], Outside(vals, [four]), 1)
  {
    var kickers := Without(UniqueValues(vals), four);
    QuadKickerExists(vals, four);
    WithoutTop(vals, four, 1);
    assert Take(kickers, 1) == [kickers[0]];
    kicker := kickers[0];
  }

  /** Four of a Kind carries the quad's value and the highest other value. */
  lemma FourOfAKindValues(pool: seq<Card>) returns (four: int, kicker: int)
    requires EvaluablePool(pool) && Evaluate(pool).score == 7
    ensures Evaluate(pool).values == [four, kicker]
    ensures TopOf([four], WithCountSet(ValuesOf(pool), 4), 1)
    ensures TopOf([kicker], Outside(ValuesOf(pool), [four]), 1)
  {
    four := EvaluateFour(pool);
    kicker := FourOfAKindTop(ValuesOf(pool), four);
    FindCountTop(ValuesOf(pool), 4);
  }

  /** The branches of `evaluateHand` after Four of a Kind. */
  lemma EvaluateBelowFour(pool: seq<Card>)
    requires EvaluablePool(pool) && Evaluate(pool).score <= 6
    ensures var vals := ValuesOf(pool);
            var st := StraightOf(UniqueValues(vals));
            Evaluate(pool) == BelowFourOfAKind(pool, vals, UniqueValues(vals), FlushSuit(pool), st.Some?,
                                               if st.Some? then st.value else [])
  {
    var vals := ValuesOf(pool);
    var st := StraightOf(UniqueValues(vals));
    assert Evaluate(pool) == Classify(pool, st.Some?, if st.Some? then st.value else []);
  }

  /** The branches of `evaluateHand` after Full House. */
  lemma EvaluateBelowFullHouse(pool: seq<Card>)
    requires EvaluablePool(pool) && Evaluate(pool).score <= 5
    ensures var vals := ValuesOf(pool);
            var u := UniqueValues(vals);
            var st := StraightOf(u);
            Evaluate(pool) == BelowFullHouse(pool, vals, u, FlushSuit(pool), st.Some?,
                                             if st.Some? then st.value else [],
                                             FindCount(u, vals, 3), WithCount(u, vals, 2))
  {
    EvaluateBelowFour(pool);
  }

  /** The branches of `evaluateHand` after Three of a Kind. */
  lemma EvaluateBelowThree(pool: seq<Card>)
    requires EvaluablePool(pool) && Evaluate(pool).score <= 2
    ensures var vals := ValuesOf(pool);
            var u := UniqueValues(vals);
            Evaluate(pool) == BelowThreeOfAKind(vals, u, WithCount(u, vals, 2))
  {
    EvaluateBelowFullHouse(pool);
  }

  /** The Straight Flush and Straight branches report the straight found. */
  lemma StraightBranch(pool: seq<Card>)
    requires EvaluablePool(pool)
    requires Evaluate(pool).score == 8 || Evaluate(pool).score == 4
    ensures StraightOf(UniqueValues(ValuesOf(pool))) == Some(Evaluate(pool).values)
  {
    var st := StraightOf(UniqueValues(ValuesOf(pool)));
    if Evaluate(pool).score == 8 {
      assert Evaluate(pool) == Classify(pool, st.Some?, if st.Some? then st.value else []);
    } else {
      EvaluateBelowFullHouse(pool);
      assert st.Some?;
      assert |st.value| == 5 by {
        StraightOfSpec(ValuesOf(pool));
      }
    }
  }

  /** A straight found among the values is the wheel's, or the highest run of five. */
  lemma FoundStraight(vals: seq<int>, sv: seq<int>)
    requires StraightOf(UniqueValues(vals)) == Some(sv)
    ensures HasWheel(vals) ==> sv == [5, 4, 3, 2, 1]
    ensures !HasWheel(vals) ==>
              exists h :: RunAt(vals, h) && sv == Run(h) && forall h' :: RunAt(vals, h') ==> h' <= h
  {
    StraightOfSpec(vals);
  }

  /** A Straight Flush or a Straight carries the straight's five values: `[5, 4, 3, 2, 1]`
      when the wheel is present, otherwise the highest run of five. */
  lemma StraightValues(pool: seq<Card>)
    requires EvaluablePool(pool)
    requires Evaluate(pool).score == 8 || Evaluate(pool).score == 4
    ensures HasWheel(ValuesOf(pool)) ==> Evaluate(pool).values == [5, 4, 3, 2, 1]
    ensures !HasWheel(ValuesOf(pool)) ==>
              exists h :: RunAt(ValuesOf(pool), h) && Evaluate(pool).values == Run(h)
                          && forall h' :: RunAt(ValuesOf(pool), h') ==> h' <= h
  {
    StraightBranch(pool);
    FoundStraight(ValuesOf(pool), Evaluate(pool).values);
  }

  /** The Full House branch: a value occurs three times and one exactly twice. */
  lemma FullHouseBranch(pool: seq<Card>)
    requires EvaluablePool(pool) && Evaluate(pool).score == 6
    ensures var vals := ValuesOf(pool);
            var u := UniqueValues(vals);
            FindCount(u, vals, 3).Some? && |WithCount(u, vals, 2)| > 0 &&
            Evaluate(pool).values == [FindCount(u, vals, 3).value, WithCount(u, vals, 2)[0]]
  {
    EvaluateBelowFour(pool);
  }

  /** Full House carries the highest value occurring three times and the highest value
      occurring exactly twice. */
  lemma FullHouseValues(pool: seq<Card>) returns (three: int, pair: int)
    requires EvaluablePool(pool) && Evaluate(pool).score == 6
    ensures Evaluate(pool).values == [three, pair]
    ensures TopOf([three], WithCountSet(ValuesOf(pool), 3), 1)
    ensures TopOf([pair], WithCountSet(ValuesOf(pool), 2), 1)
  {
    FullHouseBranch(pool);
    var vals := ValuesOf(pool);
    three, pair := FindCount(UniqueValues(vals), vals, 3).value, WithCount(UniqueValues(vals), vals, 2)[0];
    FullHouseTop(vals);
  }

  /** The value found three times and the first of the pairs are the highest of their kind. */
  lemma FullHouseTop(vals: seq<int>)
    requires FindCount(UniqueValues(vals), vals, 3).Some? && |WithCount(UniqueValues(vals), vals, 2)| > 0
    ensures TopOf([FindCount(UniqueValues(vals), vals, 3).value], WithCountSet(vals, 3), 1)
    ensures TopOf([WithCount(UniqueValues(vals), vals, 2)[0]], WithCountSet(vals, 2), 1)
  {
    var pairs := WithCount(UniqueValues(vals), vals, 2);
    FindCountTop(vals, 3);
    WithCountTop(vals, 2, 1);
    assert Take(pairs, 1) == [pairs[0]];
  }

  /** What a non-increasing sequence leaves after its first `n` elements is at most its
      `n`-th element. */
  lemma PrefixIsTop(sorted: seq<int>, n: nat)
    requires NonIncreasing(sorted) && 0 < n < |sorted|
    ensures forall w :: w in multiset(sorted) - multiset(sorted[..n]) ==> w <= sorted[n - 1]
  {
    assert sorted == sorted[..n] + sorted[n..];
    assert multiset(sorted) - multiset(sorted[..n]) == multiset(sorted[n..]);
    forall w | w in multiset(sorted[n..]) ensures w <= sorted[n - 1] {
      var j :| 0 <= j < |sorted[n..]| && sorted[n..][j] == w;
      assert sorted[j + n] == w;
    }
  }

  /** The first five of a descending arrangement of `all` are its five highest values. */
  lemma TakeFiveTop(all: seq<int>, sorted: seq<int>)
    requires NonIncreasing(sorted) && multiset(sorted) == multiset(all)
    ensures var fv := Take(sorted, 5);
            NonIncreasing(fv) && |fv| == (if |all| < 5 then |all| else 5)
            && multiset(fv) <= multiset(all)
            && forall w :: w in multiset(all) - multiset(fv) ==> w <= fv[|fv| - 1]
  {
    assert |sorted| == |multiset(sorted)| == |multiset(all)| == |all|;
    if 5 < |sorted| {
      PrefixIsTop(sorted, 5);
      assert sorted == sorted[..5] + sorted[5..];
    }
  }

  /** The five highest values of one suit, highest first: a prefix of the suit's values
      sorted descending. */
  lemma FlushValuesTop(pool: seq<Card>, suit: string)
    requires RanksKnown(pool)
    ensures var fv := FlushValues(pool, suit);
            var all := ValuesOf(SuitCards(pool, suit));
            NonIncreasing(fv) && |fv| == (if |all| < 5 then |all| else 5)
            && multiset(fv) <= multiset(all)
            && forall w :: w in multiset(all) - multiset(fv) ==> w <= fv[|fv| - 1]
  {
    var all := ValuesOf(SuitCards(pool, suit));
    TakeFiveTop(all, SortedValues(all));
  }

  /** Flush carries the values of the flush suit's highest five cards. */
  lemma FlushValuesOf(pool: seq<Card>) returns (suit: string)
    requires EvaluablePool(pool) && Evaluate(pool).score == 5
    ensures SuitCount(pool, suit) >= 5
    ensures Evaluate(pool).values == FlushValues(pool, suit)
  {
    EvaluateBelowFullHouse(pool);
    suit := FlushSuit(pool).value;
  }

  /** Three of a Kind carries the highest value occurring three times and the two highest
      other values. */
  lemma ThreeOfAKindValues(pool: seq<Card>) returns (three: int, kickers: seq<int>)
    requires EvaluablePool(pool) && Evaluate(pool).score == 3
    ensures Evaluate(pool).values == [three] + kickers
    ensures TopOf([three], WithCountSet(ValuesOf(pool), 3), 1)
    ensures TopOf(kickers, Outside(ValuesOf(pool), [three]), 2)
  {
    var vals := ValuesOf(pool);
    var u := UniqueValues(vals);
    EvaluateBelowFullHouse(pool);
    three := FindCount(u, vals, 3).value;
    kickers := Take(Without(u, three), 2);
    FindCountTop(vals, 3);
    WithoutTop(vals, three, 2);
  }

  /** Two pairs in five or more cards leave another value for the kicker. */
  lemma PairsKickerExists(vals: seq<int>, high: int, low: int)
    requires |vals| != 4 && high != low
    requires multiset(vals)[high] == 2 && multiset(vals)[low] == 2
    ensures FirstOutside(UniqueValues(vals), [high, low]).Some?
  {
    CountsAtMostLength(vals, high, low);
    ThirdValueExists(vals, high, low);
    var w :| w in vals && w != high && w != low;
    assert w in UniqueValues(vals) && w !in [high, low];
  }

  /** The Two Pair branch lists the two highest pairs and the highest value outside them. */
  lemma TwoPairTop(vals: seq<int>) returns (high: int, low: int, kicker: int)
    requires |vals| != 4 && |WithCount(UniqueValues(vals), vals, 2)| >= 2
    ensures TwoPair(vals, UniqueValues(vals), WithCount(UniqueValues(vals), vals, 2)).values
            == [high, low, kicker]
    ensures TopOf([high, low], WithCountSet(vals, 2), 2)
    ensures TopOf([kicker], Outside(vals, [high, low]), 1)
  {
    var u := UniqueValues(vals);
    var pairs := WithCount(u, vals, 2);
    high, low := pairs[0], pairs[1];
    assert pairs[..2] == [high, low];
    assert high in pairs && low in pairs;
    PairsKickerExists(vals, high, low);
    kicker := FirstOutside(u, [high, low]).value;
    WithCountTop(vals, 2, 2);
    assert Take(pairs, 2) == [high, low];
    FirstOutsideTop(vals, [high, low]);
  }

  /** Two Pair carries the two highest values occurring exactly twice and the highest value
      outside them. */
  lemma TwoPairValues(pool: seq<Card>) returns (high: int, low: int, kicker: int)
    requires EvaluablePool(pool) && Evaluate(pool).score == 2
    ensures Evaluate(pool).values == [high, low, kicker]
    ensures TopOf([high, low], WithCountSet(ValuesOf(pool), 2), 2)
    ensures TopOf([kicker], Outside(ValuesOf(pool), [high, low]), 1)
  {
    EvaluateBelowThree(pool);
    high, low, kicker := TwoPairTop(ValuesOf(pool));
  }

  /** The One Pair branch: exactly one value occurs twice. */
  lemma OnePairBranch(pool: seq<Card>)
    requires EvaluablePool(pool) && Evaluate(pool).score == 1
    ensures var vals := ValuesOf(pool);
            var pairs := WithCount(UniqueValues(vals), vals, 2);
            |pairs| == 1 && Evaluate(pool).values == [pairs[0]] + Take(Without(UniqueValues(vals), pairs[0]), 3)
  {
    EvaluateBelowThree(pool);
  }

  /** When the list of pairs is `[pair]`, `pair` is the only value occurring twice. */
  lemma OnlyPair(vals: seq<int>, pair: int)
    requires WithCount(UniqueValues(vals), vals, 2) == [pair]
    ensures WithCountSet(vals, 2) == {pair}
  {
    forall w ensures w in WithCountSet(vals, 2) <==> w == pair {
      InWithCount(vals, 2, w);
    }
  }

  /** The values `groups.filter(v => rankCounts[v] === k)` keeps are those occurring `k`
      times. */
  lemma InWithCount(vals: seq<int>, k: int, w: int)
    ensures w in WithCount(UniqueValues(vals), vals, k) <==> w in WithCountSet(vals, k)
  {
  }

  /** One Pair carries the pair's value, the only value occurring exactly twice, and the
      three highest other values. */
  lemma OnePairValues(pool: seq<Card>) returns (pair: int, kickers: seq<int>)
    requires EvaluablePool(pool) && Evaluate(pool).score == 1
    ensures Evaluate(pool).values == [pair] + kickers
    ensures WithCountSet(ValuesOf(pool), 2) == {pair}
    ensures TopOf(kickers, Outside(ValuesOf(pool), [pair]), 3)
  {
    var vals := ValuesOf(pool);
    OnePairBranch(pool);
    var pairs := WithCount(UniqueValues(vals), vals, 2);
    pair := pairs[0];
    assert pairs == [pair];
    kickers := Take(Without(UniqueValues(vals), pair), 3);
    OnlyPair(vals, pair);
    WithoutTop(vals, pair, 3);
  }

  /** High Card carries the five highest distinct values. */
  lemma HighCardValues(pool: seq<Card>)
    requires EvaluablePool(pool) && Evaluate(pool).score == 0
    ensures TopOf(Evaluate(pool).values, Outside(ValuesOf(pool), []), 5)
  {
    var vals := ValuesOf(pool);
    EvaluateBelowThree(pool);
    TakeTop(UniqueValues(vals), Outside(vals, []), 5);
  }
}
