/** The hand evaluator `evaluateHand` of src/components/PokerGame.tsx: from a pool of hole
    and community cards it derives the rank counts, the distinct values in descending order,
    a flush suit and a straight, and returns the first category that matches, from
    Straight Flush (8) down to High Card (0), with its tie-break values. */
module HandEval {
  import opened Cards

  datatype Option<T> = None | Some(value: T)

  /** `HandResult`: category score, category name and tie-break values. */
  datatype HandResult = HandResult(score: int, name: string, values: seq<int>)

  /** The name the evaluator gives each category score. */
  function CategoryName(score: int): string {
    match score
    case 8 => "Straight Flush"
    case 7 => "Four of a Kind"
    case 6 => "Full House"
    case 5 => "Flush"
    case 4 => "Straight"
    case 3 => "Three of a Kind"
    case 2 => "Two Pair"
    case 1 => "One Pair"
    case _ => "High Card"
  }

  /** The length of the tie-break list of each category in a seven-card pool. */
  function ShowdownLength(score: int): nat {
    match score
    case 8 => 5
    case 7 => 2
    case 6 => 2
    case 5 => 5
    case 4 => 5
    case 3 => 3
    case 2 => 3
    case 1 => 4
    case _ => 5
  }

  /** A result whose tie-break list has its category's showdown length. */
  predicate ShowdownShaped(r: HandResult) {
    |r.values| == ShowdownLength(r.score)
  }

  // ---------------------------------------------------------------------------------------
  // Integer sequences

  predicate StrictlyDescending(s: seq<int>) {
    forall i, j :: 0 <= i < j < |s| ==> s[i] > s[j]
  }

  predicate NonIncreasing(s: seq<int>) {
    forall i, j :: 0 <= i < j < |s| ==> s[i] >= s[j]
  }

  predicate InValueRange(vals: seq<int>) {
    forall v :: v in vals ==> 2 <= v <= 14
  }

  /** Putting a larger value in front keeps a sequence strictly descending. */
  lemma ConsDescending(a: int, rest: seq<int>)
    requires StrictlyDescending(rest)
    requires forall w :: w in rest ==> w < a
    ensures StrictlyDescending([a] + rest)
  {
    forall i, j | 0 <= i < j < |rest| + 1 ensures ([a] + rest)[i] > ([a] + rest)[j] {
      assert ([a] + rest)[j] == rest[j - 1] && rest[j - 1] in rest;
    }
  }

  /** Everything after the head of a strictly descending sequence is below the head. */
  lemma TailBelowHead(s: seq<int>)
    requires StrictlyDescending(s) && s != []
    ensures forall w :: w in s[1..] ==> w < s[0]
    ensures StrictlyDescending(s[1..])
  {
    forall w | w in s[1..] ensures w < s[0] {
      var k :| 0 <= k < |s[1..]| && s[1..][k] == w;
      assert s[k + 1] == w;
    }
  }

  /** `s.filter(p)`. */
  function Keep(s: seq<int>, p: int -> bool): (r: seq<int>)
    ensures |r| <= |s|
    ensures forall w :: w in r <==> w in s && p(w)
    ensures StrictlyDescending(s) ==> StrictlyDescending(r)
  {
    if s == [] then []
    else
      var rest := Keep(s[1..], p);
      assert forall w :: w in s <==> w == s[0] || w in s[1..];
      if p(s[0]) then
        if StrictlyDescending(s) then
          TailBelowHead(s);
          ConsDescending(s[0], rest);
          [s[0]] + rest
        else [s[0]] + rest
      else
        if StrictlyDescending(s) then TailBelowHead(s); rest else rest
  }

  /** `s.find(p)`: the first element satisfying `p`. On a strictly descending sequence this
      is the largest such element. */
  function Find(s: seq<int>, p: int -> bool): (r: Option<int>)
    ensures r.Some? ==> r.value in s && p(r.value)
    ensures r.Some? && StrictlyDescending(s) ==> forall w :: w in s && p(w) ==> w <= r.value
    ensures r.None? <==> forall w :: w in s ==> !p(w)
  {
    if s == [] then None
    else
      assert s[0] in s;
      assert forall w :: w in s <==> w == s[0] || w in s[1..];
      if p(s[0]) then
        if StrictlyDescending(s) then TailBelowHead(s); Some(s[0]) else Some(s[0])
      else
        if StrictlyDescending(s) then TailBelowHead(s); Find(s[1..], p) else Find(s[1..], p)
  }

  /** `s.slice(0, n)`. */
  function Take(s: seq<int>, n: nat): seq<int> {
    if n < |s| then s[..n] else s
  }

  // ---------------------------------------------------------------------------------------
  // Counting ranks and suits

  /** Every card's rank symbol has a value (`RANK_VALUES[c.rank]` is defined). */
  predicate RanksKnown(pool: seq<Card>) {
    forall c :: c in pool ==> c.rank in RANK_VALUES
  }

  /** Every card of the pool has one of the four suit symbols. These are non-empty strings
      that are not names of `Object.prototype` members, so `!!flushSuit` and the counts in
      `suitCounts` behave as for any plain key. */
  predicate SuitsKnown(pool: seq<Card>) {
    forall c :: c in pool ==> c.suit in SUITS
  }

  /** The pools the evaluator is defined on: known ranks and suits, at most the seven cards
      of a showdown, and not four cards, where a Two Pair (or Four of a Kind) has no kicker
      and the source's `kicker!` is undefined. */
  predicate EvaluablePool(pool: seq<Card>) {
    RanksKnown(pool) && SuitsKnown(pool) && |pool| <= 7 && |pool| != 4
  }

  /** The rank values of the pool's cards, in pool order. */
  function ValuesOf(pool: seq<Card>): (vals: seq<int>)
    requires RanksKnown(pool)
    ensures |vals| == |pool| && InValueRange(vals)
    ensures forall i :: 0 <= i < |pool| ==> vals[i] == Value(pool[i])
  {
    seq(|pool|, i requires 0 <= i < |pool| => Value(pool[i]))
  }

  /** Putting a value no smaller than the rest in front keeps a sequence non-increasing. */
  lemma ConsNonIncreasing(a: int, rest: seq<int>)
    requires NonIncreasing(rest)
    requires forall w :: w in rest ==> w <= a
    ensures NonIncreasing([a] + rest)
  {
    forall i, j | 0 <= i < j < |rest| + 1 ensures ([a] + rest)[i] >= ([a] + rest)[j] {
      assert ([a] + rest)[j] == rest[j - 1] && rest[j - 1] in rest;
    }
  }

  /** Everything after the head of a non-increasing sequence is at most the head. */
  lemma TailAtMostHead(s: seq<int>)
    requires NonIncreasing(s) && s != []
    ensures forall w :: w in s[1..] ==> w <= s[0]
    ensures NonIncreasing(s[1..])
  {
    forall w | w in s[1..] ensures w <= s[0] {
      var k :| 0 <= k < |s[1..]| && s[1..][k] == w;
      assert s[k + 1] == w;
    }
  }

  /** Inserts `x` into a non-increasing sequence, before the first smaller-or-equal element. */
  function InsertDescending(x: int, s: seq<int>): (r: seq<int>)
    requires NonIncreasing(s)
    ensures NonIncreasing(r)
    ensures multiset(r) == multiset(s) + multiset{x}
  {
    if s == [] then [x]
    else if x >= s[0] then
      TailAtMostHead(s);
      ConsNonIncreasing(x, s);
      [x] + s
    else
      TailAtMostHead(s);
      var rest := InsertDescending(x, s[1..]);
      assert s == [s[0]] + s[1..];
      assert forall w :: w in rest ==> w in multiset(rest);
      ConsNonIncreasing(s[0], rest);
      [s[0]] + rest
  }

  /** The values sorted descending (`sort((a, b) => b.value - a.value)`, then the values). */
  function SortedValues(vals: seq<int>): (r: seq<int>)
    ensures NonIncreasing(r)
    ensures multiset(r) == multiset(vals)
  {
    if vals == [] then []
    else
      assert vals == [vals[0]] + vals[1..];
      InsertDescending(vals[0], SortedValues(vals[1..]))
  }

  /** Adds `x` to a strictly descending sequence unless it is already there. */
  function InsertDistinct(x: int, u: seq<int>): (r: seq<int>)
    requires StrictlyDescending(u)
    ensures StrictlyDescending(r) && |r| <= |u| + 1
    ensures forall w :: w in r <==> w == x || w in u
  {
    if u == [] then [x]
    else if x > u[0] then
      TailBelowHead(u);
      ConsDescending(x, u);
      [x] + u
    else if x == u[0] then u
    else
      TailBelowHead(u);
      var rest := InsertDistinct(x, u[1..]);
      assert forall w :: w in u <==> w == u[0] || w in u[1..];
      ConsDescending(u[0], rest);
      [u[0]] + rest
  }

  /** `uniqueValues`: the values of `new Set(...)`, sorted descending. The source's `groups`
      (the keys of `rankCounts`, sorted descending) is the same sequence. */
  function UniqueValues(vals: seq<int>): (u: seq<int>)
    ensures forall w :: w in u <==> w in vals
    ensures StrictlyDescending(u) && |u| <= |vals|
  {
    if vals == [] then []
    else
      assert forall w :: w in vals <==> w == vals[0] || w in vals[1..];
      InsertDistinct(vals[0], UniqueValues(vals[1..]))
  }

  /** The cards of the given suit, in pool order (`allCardValues.filter(c => c.suit === s)`). */
  function SuitCards(pool: seq<Card>, suit: string): (r: seq<Card>)
    ensures |r| <= |pool|
    ensures forall c :: c in r <==> c in pool && c.suit == suit
  {
    if pool == [] then []
    else
      (if pool[0].suit == suit then [pool[0]] else []) + SuitCards(pool[1..], suit)
  }

  /** The cards of `suit` keep their multiplicity in the pool; other cards are dropped. */
  lemma {:induction false} SuitCardsCount(pool: seq<Card>, suit: string)
    ensures forall c :: multiset(SuitCards(pool, suit))[c] == if c.suit == suit then multiset(pool)[c] else 0
  {
    if pool != [] {
      SuitCardsCount(pool[1..], suit);
      assert pool == [pool[0]] + pool[1..];
    }
  }

  /** `suitCounts[suit]`. */
  function SuitCount(pool: seq<Card>, suit: string): nat {
    |SuitCards(pool, suit)|
  }

  /** The suit of the first card, from position `i` on, whose suit has five or more cards. */
  function FlushSuitFrom(pool: seq<Card>, i: nat): (r: Option<string>)
    requires i <= |pool|
    ensures r.Some? ==> SuitCount(pool, r.value) >= 5
    ensures r.None? ==> forall k :: i <= k < |pool| ==> SuitCount(pool, pool[k].suit) < 5
    decreases |pool| - i
  {
    if i == |pool| then None
    else if SuitCount(pool, pool[i].suit) >= 5 then Some(pool[i].suit)
    else FlushSuitFrom(pool, i + 1)
  }

  /** `flushSuit`: a suit with at least five cards, if there is one. The source searches the
      keys of `suitCounts`; in a pool of at most seven cards there is at most one such suit,
      so the order of the search does not matter. */
  function FlushSuit(pool: seq<Card>): (r: Option<string>)
    ensures r.Some? ==> SuitCount(pool, r.value) >= 5
    ensures r.None? ==> forall suit :: SuitCount(pool, suit) < 5
  {
    var r := FlushSuitFrom(pool, 0);
    if r.None? then
      forall suit ensures SuitCount(pool, suit) < 5 {
        var cs := SuitCards(pool, suit);
        if |cs| > 0 {
          assert cs[0] in pool;
        }
      }
      r
    else r
  }

  // ---------------------------------------------------------------------------------------
  // Straights

  /** Ace, 5, 4, 3 and 2 are all present (`aceLowStraightValues.every(...)`). */
  predicate HasWheel(u: seq<int>) {
    14 in u && 5 in u && 4 in u && 3 in u && 2 in u
  }

  /** The first window `u[k..k + 5]`, `k >= i`, whose ends differ by exactly 4. */
  function WindowFrom(u: seq<int>, i: nat): (r: Option<seq<int>>)
    ensures r.Some? ==> i + 5 <= |u| && |r.value| == 5 && r.value[0] - r.value[4] == 4
    decreases |u| - i
  {
    if i + 5 > |u| then None
    else if u[i] - u[i + 4] == 4 then Some(u[i..i + 5])
    else WindowFrom(u, i + 1)
  }

  /** The straight the source reports for the distinct values `u`: only with five or more
      distinct values; the wheel check comes first and reports `[5, 4, 3, 2, 1]`;
      otherwise the first (highest) window of five. */
  function StraightOf(u: seq<int>): (r: Option<seq<int>>)
    ensures r.Some? ==> |u| >= 5 && |r.value| == 5
  {
    if |u| >= 5 then
      if HasWheel(u) then Some([5, 4, 3, 2, 1]) else WindowFrom(u, 0)
    else None
  }

  /** The straight detection of `evaluateHand`: the wheel check, then the `for` loop over
      the windows of five that stops at the first match. */
  method DetectStraight(uniqueValues: seq<int>) returns (isStraight: bool, straightValues: seq<int>)
    ensures isStraight == StraightOf(uniqueValues).Some?
    ensures straightValues == if isStraight then StraightOf(uniqueValues).value else []
  {
    isStraight := false;
    straightValues := [];
    if |uniqueValues| >= 5 {
      if HasWheel(uniqueValues) {
        isStraight := true;
        straightValues := [5, 4, 3, 2, 1];
      } else {
        var i := 0;
        while i <= |uniqueValues| - 5
          invariant 0 <= i <= |uniqueValues| - 4
          invariant !isStraight && straightValues == []
          invariant WindowFrom(uniqueValues, i) == WindowFrom(uniqueValues, 0)
        {
          var slice := uniqueValues[i..i + 5];
          if slice[0] - slice[4] == 4 {
            isStraight := true;
            straightValues := slice;
            break;
          }
          i := i + 1;
        }
      }
    }
  }

  // ---------------------------------------------------------------------------------------
  // Kickers exist in pools of five or more cards

  /** When every value is `a` or `b`, their counts add up to the length. */
  lemma {:induction false} CoveredByTwo(vals: seq<int>, a: int, b: int)
    requires forall w :: w in vals ==> w == a || w == b
    ensures (if a == b then multiset(vals)[a] else multiset(vals)[a] + multiset(vals)[b]) == |vals|
  {
    if vals != [] {
      var t := vals[1..];
      assert vals == [vals[0]] + t;
      assert multiset(vals) == multiset{vals[0]} + multiset(t);
      assert forall w :: w in t ==> w in vals;
      CoveredByTwo(t, a, b);
      assert vals[0] in vals;
      if a == b {
        assert vals[0] == a;
        assert multiset(vals)[a] == multiset(t)[a] + 1;
      } else if vals[0] == a {
        assert multiset(vals)[a] == multiset(t)[a] + 1 && multiset(vals)[b] == multiset(t)[b];
      } else {
        assert multiset(vals)[b] == multiset(t)[b] + 1 && multiset(vals)[a] == multiset(t)[a];
      }
    }
  }

  /** The counts of one or two values never exceed the length. */
  lemma {:induction false} CountsAtMostLength(vals: seq<int>, a: int, b: int)
    ensures (if a == b then multiset(vals)[a] else multiset(vals)[a] + multiset(vals)[b]) <= |vals|
  {
    if vals != [] {
      var t := vals[1..];
      assert vals == [vals[0]] + t;
      assert multiset(vals) == multiset{vals[0]} + multiset(t);
      CountsAtMostLength(t, a, b);
    }
  }

  /** Some value other than `a` and `b` occurs when their counts fall short of the length. */
  lemma ThirdValueExists(vals: seq<int>, a: int, b: int)
    requires (if a == b then multiset(vals)[a] else multiset(vals)[a] + multiset(vals)[b]) < |vals|
    ensures exists w :: w in vals && w != a && w != b
  {
    if forall w :: w in vals ==> w == a || w == b {
      CoveredByTwo(vals, a, b);
    }
  }

  // ---------------------------------------------------------------------------------------
  // The evaluator

  /** `groups.find(v => rankCounts[v] === k)`: a value of `u` occurring exactly `k` times,
      if there is one. */
  function FindCount(u: seq<int>, vals: seq<int>, k: int): Option<int> {
    Find(u, v => multiset(vals)[v] == k)
  }

  /** `groups.filter(v => rankCounts[v] === k)`: the values of `u` occurring exactly `k`
      times, in the order of `u`. */
  function WithCount(u: seq<int>, vals: seq<int>, k: int): seq<int> {
    Keep(u, v => multiset(vals)[v] == k)
  }

  /** `uniqueValues.filter(v => v !== x)`: the values of `u` other than `x`. */
  function Without(u: seq<int>, x: int): seq<int> {
    Keep(u, v => v != x)
  }

  /** `uniqueValues.find(v => !xs.includes(v))`: a value of `u` outside `xs`, if there is
      one. */
  function FirstOutside(u: seq<int>, xs: seq<int>): Option<int> {
    Find(u, v => v !in xs)
  }

  /** The category checks of `evaluateHand`, in the source's order, given the outcome of the
      straight detection. */
  function Classify(pool: seq<Card>, isStraight: bool, straightValues: seq<int>): (r: HandResult)
    requires EvaluablePool(pool)
    ensures 0 <= r.score <= 8 && r.name == CategoryName(r.score)
  {
    var vals := ValuesOf(pool);
    var u := UniqueValues(vals);
    var flushSuit := FlushSuit(pool);
    if isStraight && flushSuit.Some? then
      HandResult(8, "Straight Flush", straightValues)
    else
      var four := FindCount(u, vals, 4);
      if four.Some? then
        FourOfAKind(vals, u, four.value)
      else
        BelowFourOfAKind(pool, vals, u, flushSuit, isStraight, straightValues)
  }

  /** Four of a Kind: the quad's value and the highest other value. */
  function FourOfAKind(vals: seq<int>, u: seq<int>, four: int): (r: HandResult)
    requires |vals| != 4 && u == UniqueValues(vals)
    requires multiset(vals)[four] == 4
    ensures r.score == 7 && r.name == CategoryName(7)
  {
    var kickers := Without(u, four);
    CountsAtMostLength(vals, four, four);
    ThirdValueExists(vals, four, four);
    HandResult(7, "Four of a Kind", [four, kickers[0]])
  }

  /** The checks after Four of a Kind: Full House, then the rest. */
  function BelowFourOfAKind(pool: seq<Card>, vals: seq<int>, u: seq<int>, flushSuit: Option<string>,
                            isStraight: bool, straightValues: seq<int>): (r: HandResult)
    requires |vals| != 4 && u == UniqueValues(vals)
    requires flushSuit.Some? ==> RanksKnown(pool)
    ensures 0 <= r.score <= 6 && r.name == CategoryName(r.score)
  {
    var three := FindCount(u, vals, 3);
    var pairs := WithCount(u, vals, 2);
    if three.Some? && |pairs| > 0 then
      HandResult(6, "Full House", [three.value, pairs[0]])
    else
      BelowFullHouse(pool, vals, u, flushSuit, isStraight, straightValues, three, pairs)
  }

  /** `flushCards.map(c => c.value).slice(0, 5)`: the five highest values of the suit. */
  function FlushValues(pool: seq<Card>, suit: string): (r: seq<int>)
    requires RanksKnown(pool)
    ensures NonIncreasing(r)
    ensures |r| == if SuitCount(pool, suit) < 5 then SuitCount(pool, suit) else 5
  {
    var all := ValuesOf(SuitCards(pool, suit));
    var sorted := SortedValues(all);
    assert |sorted| == |multiset(sorted)| == |multiset(all)| == |all|;
    Take(sorted, 5)
  }

  /** The checks after Full House: Flush, Straight, Three of a Kind, Two Pair, One Pair,
      High Card. */
  function BelowFullHouse(pool: seq<Card>, vals: seq<int>, u: seq<int>, flushSuit: Option<string>,
                          isStraight: bool, straightValues: seq<int>, three: Option<int>,
                          pairs: seq<int>): (r: HandResult)
    requires |vals| != 4 && u == UniqueValues(vals)
    requires flushSuit.Some? ==> RanksKnown(pool)
    requires pairs == WithCount(u, vals, 2)
    ensures 0 <= r.score <= 5 && r.name == CategoryName(r.score)
  {
    if flushSuit.Some? then
      HandResult(5, "Flush", FlushValues(pool, flushSuit.value))
    else if isStraight then
      HandResult(4, "Straight", Take(straightValues, 5))
    else if three.Some? then
      HandResult(3, "Three of a Kind", [three.value] + Take(Without(u, three.value), 2))
    else
      BelowThreeOfAKind(vals, u, pairs)
  }

  /** The checks after Three of a Kind: Two Pair, One Pair, High Card. */
  function BelowThreeOfAKind(vals: seq<int>, u: seq<int>, pairs: seq<int>): (r: HandResult)
    requires |vals| != 4 && u == UniqueValues(vals)
    requires pairs == WithCount(u, vals, 2)
    ensures 0 <= r.score <= 2 && r.name == CategoryName(r.score)
  {
    if |pairs| >= 2 then
      TwoPair(vals, u, pairs)
    else if |pairs| == 1 then
      HandResult(1, "One Pair", [pairs[0]] + Take(Without(u, pairs[0]), 3))
    else
      HandResult(0, "High Card", Take(u, 5))
  }

  /** Two Pair: the two highest pairs and the highest value outside them. */
  function TwoPair(vals: seq<int>, u: seq<int>, pairs: seq<int>): (r: HandResult)
    requires |vals| != 4 && u == UniqueValues(vals)
    requires pairs == WithCount(u, vals, 2) && |pairs| >= 2
    ensures r.score == 2 && r.name == CategoryName(2)
  {
    var topTwoPairs := pairs[..2];
    assert pairs[0] in pairs && pairs[1] in pairs;
    assert pairs[0] != pairs[1];
    CountsAtMostLength(vals, pairs[0], pairs[1]);
    ThirdValueExists(vals, pairs[0], pairs[1]);
    var kicker := FirstOutside(u, topTwoPairs);
    HandResult(2, "Two Pair", topTwoPairs + [kicker.value])
  }

  /** `evaluateHand` on the merged pool of hole and community cards. */
  function Evaluate(pool: seq<Card>): (r: HandResult)
    requires EvaluablePool(pool)
    ensures 0 <= r.score <= 8 && r.name == CategoryName(r.score)
  {
    var straight := StraightOf(UniqueValues(ValuesOf(pool)));
    Classify(pool, straight.Some?, if straight.Some? then straight.value else [])
  }

  /** `evaluateHand(hand, communityCards)`. */
  method EvaluateHand(hand: seq<Card>, communityCards: seq<Card>) returns (r: HandResult)
    requires EvaluablePool(hand + communityCards)
    ensures r == Evaluate(hand + communityCards)
    ensures 0 <= r.score <= 8 && r.name == CategoryName(r.score)
  {
    var allCards := hand + communityCards;
    var uniqueValues := UniqueValues(ValuesOf(allCards));
    var isStraight, straightValues := DetectStraight(uniqueValues);
    r := Classify(allCards, isStraight, straightValues);
  }
}
