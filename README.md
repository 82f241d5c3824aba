# Texas Hold'em core of `PokerGame.tsx`, in Dafny

This project models the game logic of the Texas Hold'em component
`src/components/PokerGame.tsx` and proves properties of it:

- the 52-card deck (`createDeck`) and its Fisher-Yates shuffle (`shuffleDeck`);
- the hand evaluator (`evaluateHand`). It takes a player's hole cards and the community
  cards, finds the category (Straight Flush 8 down to High Card 0) and the tie-break values;
- the hand comparator (`compareHands`) and the sort of the showdown results by it;
- the ranking loop of `showResults`, which gives competition ranks ("1224": tied hands
  share a rank, and the next hand takes its position);
- the dealing state machine (`startGame`, `nextStage`, `showResults`, `resetGame`),
  setup → pre-flop → flop → turn → river → showdown → setup, and the number-of-players
  input;
- the display helpers `getRankName` and `getRankSuffix`.

The evaluator is modelled as the code is written, not as textbook poker. In three places
the code differs from standard poker rules; the model follows the code:

- a Straight Flush is reported whenever some straight and some flush coexist, whatever
  their suits;
- the wheel (A-5-4-3-2) is checked before the window scan. So A-2-3-4-5-6 is reported as
  the 5-high straight `[5, 4, 3, 2, 1]`, not the 6-high one;
- a Full House needs a value seen exactly three times and a value seen exactly twice. Two
  triplets with no pair fall through to Flush, Straight or Three of a Kind. Standard rules
  let the second triplet serve as the pair.

Modules, one per file:

| file | module | contents |
|---|---|---|
| cards.dfy | `Cards` | `SUITS`, `RANKS`, `RANK_VALUES`, `Card`, `createDeck`, `getRankName` |
| deck.dfy | `Shuffle` | `shuffleDeck` as a swap loop over an array copy, and the function it computes |
| evaluator.dfy | `HandEval` | `evaluateHand`: counts, distinct values, flush suit, straight loop, category branches |
| straights.dfy | `Straights` | what the straight detection finds, stated as runs of five values |
| categories.dfy | `HandFacts` | the category stated as a reference predicate on counts and suits |
| tiebreaks.dfy | `TieBreaks` | the tie-break list of each category, stated as "the highest values of a kind" |
| showdown.dfy | `Showdown` | lengths of the tie-break lists, for seven cards from one deck |
| comparator.dfy | `Comparator` | `compareHands` (its loop) and the sort of the results |
| ranking.dfy | `Ranking` | the ranking loop and what its ranks mean |
| ordinal.dfy | `Ordinal` | `getRankSuffix`, with JavaScript's `%` and `${rank}` written out |
| game.dfy | `Game` | the `PokerGame` component as a class whose fields are its state |

React's `setState` calls become assignments to the fields of `Game.PokerGame`. The
component's buttons only exist at certain stages, so `StartGame`, `SetNumPlayers` and
`ShowResults` require the stage at which their button is shown. The
main invariant, `Valid()`, keeps every card of the deck in exactly one place once a game
has been dealt: the deck, a player's hand, or the community cards. It also keeps two cards
per player, no community cards before the flop and then 3, 4 or 5 by stage, and one result per player at the showdown.

## Model

| member | source | states |
|---|---|---|
| Cards.RankValuesTable | src/components/PokerGame.tsx:6-9 | `RANK_VALUES` gives `RANKS[i]` the value `i + 2` and knows exactly the symbols of `RANKS` |
| Cards.RankValuesInjective | src/components/PokerGame.tsx:7-9 | two rank symbols with the same value are the same symbol |
| Cards.Value | src/components/PokerGame.tsx:40 | a card's value `RANK_VALUES[c.rank]` lies in 2..14 |
| Cards.SuitRow | src/components/PokerGame.tsx:26 | `RANKS.map(rank => ({ suit, rank }))`: the thirteen cards of one suit; `Cards.SuitRowsAt` states its cards position by position |
| Cards.SuitRows | src/components/PokerGame.tsx:26 | `SUITS.flatMap(...)`; `Cards.SuitRowsAt` states that position `i` holds `Card(suits[i / 13], RANKS[i % 13])` |
| Cards.SuitRowsAt | src/components/PokerGame.tsx:26 | the `flatMap` of suit rows has 13 cards per suit, the card at position `i` having suit `i / 13` and rank `i % 13` |
| Cards.CreateDeck | src/components/PokerGame.tsx:25-27 | `createDeck()` has 52 cards; `Cards.CreateDeckSpec` states their order and that each deck card occurs once |
| Cards.CreateDeckSpec | src/components/PokerGame.tsx:25-27 | `createDeck` has 52 cards in suit-major order (`Card(SUITS[i / 13], RANKS[i % 13])` at position `i`), no card twice, every suit × rank pair present, and each deck card exactly once as a multiset |
| Cards.OneDeckIsCreateDeck | src/components/PokerGame.tsx:25-27 | a multiset holds every deck card exactly once and nothing else if and only if it is the multiset of `createDeck()` |
| Cards.FindRankName | src/components/PokerGame.tsx:126 | `Object.entries(RANK_VALUES).find(([_, val]) => val === value)` as a search through the table from index `i`; `Cards.FindRankNameSpec` states what it finds |
| Cards.FindRankNameSpec | src/components/PokerGame.tsx:126-127 | the search through the value table finds `RANKS[value - 2]` for values 2..14 and nothing otherwise |
| Cards.GetRankName | src/components/PokerGame.tsx:124-128 | 1 is named "A"; a value in 2..14 gets a symbol with that value; any other value gets "" |
| Cards.GetRankNameInverts | src/components/PokerGame.tsx:124-128 | `getRankName(RANK_VALUES[r]) == r` for every rank symbol `r` |
| Shuffle.Swap | src/components/PokerGame.tsx:33 | `[newDeck[i], newDeck[j]] = [newDeck[j], newDeck[i]]`; `Shuffle.SwapPermutes` shows it keeps the length and the cards |
| Shuffle.SwapPermutes | src/components/PokerGame.tsx:33 | a swap keeps the length and the multiset of cards |
| Shuffle.SwapsDownFrom | src/components/PokerGame.tsx:31-34 | the loop's swaps for positions `i` down to 1 keep the length; `Shuffle.SwapsDownFromPermutes` shows they keep the cards |
| Shuffle.Shuffled | src/components/PokerGame.tsx:29-36 | the deck `shuffleDeck` returns for the given draws has the input's length; `Shuffle.ShuffledPermutes` shows it is a permutation and `Shuffle.ShuffleDeck` that the loop computes it |
| Shuffle.SwapsDownFromPermutes | src/components/PokerGame.tsx:31-34 | any run of the loop's swaps keeps the length and the multiset |
| Shuffle.ShuffledPermutes | src/components/PokerGame.tsx:29-36 | the shuffled deck is a permutation of its input, of the same length |
| Shuffle.ShuffleDeck | src/components/PokerGame.tsx:29-36 | the swap loop on a fresh array returns `Shuffled(deck, picks)`, a permutation of the input of the same length; the input is a value and is not changed |
| HandEval.Keep | src/components/PokerGame.tsx:85 | `filter` keeps exactly the elements satisfying the test, and keeps a strictly descending sequence strictly descending |
| HandEval.Find | src/components/PokerGame.tsx:83 | `find` returns an element satisfying the test, the largest such one on a descending sequence, and nothing exactly when no element does |
| HandEval.CategoryName | src/components/PokerGame.tsx:79-121 | the name string each branch returns with its score; `HandEval.Evaluate` and `HandEval.Classify` state that every result carries the name of its score |
| HandEval.Take | src/components/PokerGame.tsx:97 | `.slice(0, n)`, as at lines 97, 106, 112 and 117; `TieBreaks.TakeTop` and `TieBreaks.TakeFiveTop` show that it keeps the `n` highest entries of a descending list |
| HandEval.ValuesOf | src/components/PokerGame.tsx:40 | the value of every card, in pool order, each in 2..14 |
| HandEval.InsertDescending | src/components/PokerGame.tsx:40 | inserting into a non-increasing sequence keeps it non-increasing and adds exactly one element |
| HandEval.SortedValues | src/components/PokerGame.tsx:40 | the descending sort yields a non-increasing permutation of the values |
| HandEval.InsertDistinct | src/components/PokerGame.tsx:52 | adding a value to a strictly descending sequence keeps it strictly descending, with exactly the old elements and the new one |
| HandEval.UniqueValues | src/components/PokerGame.tsx:52 | `uniqueValues` is strictly descending and holds exactly the values that occur |
| HandEval.SuitCards | src/components/PokerGame.tsx:96 | the cards kept are exactly the pool's cards of the suit |
| HandEval.SuitCardsCount | src/components/PokerGame.tsx:96 | each card of the suit is kept as many times as it occurs in the pool, and no other card is kept |
| HandEval.SuitCount | src/components/PokerGame.tsx:47-50 | `suitCounts[suit]`, the number of the pool's cards of the suit; `HandEval.SuitCardsCount` shows it counts each such card as often as it occurs |
| HandEval.FlushSuitFrom | src/components/PokerGame.tsx:54 | the suit found has at least five cards; finding none means no card from the start position on has such a suit |
| HandEval.FlushSuit | src/components/PokerGame.tsx:54-55 | the flush suit has at least five cards; when there is none, every suit has fewer than five |
| HandEval.HasWheel | src/components/PokerGame.tsx:59-61 | `aceLowStraightValues.every(v => uniqueValues.includes(v))`; `Straights.WheelHasFive` shows it implies five distinct values and `Straights.StraightOfSpec` what it selects |
| HandEval.WindowFrom | src/components/PokerGame.tsx:65-72 | a window the scan returns lies inside the values, has five entries and ends that differ by 4; `Straights.WindowFromSome` and `Straights.WindowFromNone` state which window it is |
| HandEval.StraightOf | src/components/PokerGame.tsx:57-74 | a straight found has five values and comes from at least five distinct values; `Straights.StraightOfSpec` states, against runs of five consecutive values, when one is found and which |
| HandEval.DetectStraight | src/components/PokerGame.tsx:57-74 | the wheel test and the `for` loop with `break` set `isStraight` exactly when `StraightOf` finds a straight, and `straightValues` to that straight (else `[]`) |
| HandEval.FindCount | src/components/PokerGame.tsx:83 | `groups.find(v => rankCounts[v] === k)`; `HandFacts.FindCountAgrees` and `TieBreaks.FindCountTop` state that it finds the highest value seen exactly `k` times, and finds nothing exactly when there is none |
| HandEval.WithCount | src/components/PokerGame.tsx:90 | `groups.filter(v => rankCounts[v] === k)`; `TieBreaks.InWithCount` and `TieBreaks.WithCountTop` state that it lists exactly the values seen `k` times, highest first |
| HandEval.Without | src/components/PokerGame.tsx:85 | `uniqueValues.filter(v => v !== x)`; `TieBreaks.WithoutTop` states that its first `n` are the `n` highest values other than `x` |
| HandEval.FirstOutside | src/components/PokerGame.tsx:111 | `uniqueValues.find(v => !topTwoPairs.includes(v))`; `TieBreaks.FirstOutsideTop` states that it is the highest value outside the list |
| HandEval.FlushValues | src/components/PokerGame.tsx:96-97 | the flush values are non-increasing and `min(count, 5)` long for the suit's card count; `TieBreaks.FlushValuesTop` shows they are the suit's highest five |
| HandEval.Evaluate | src/components/PokerGame.tsx:38-122 | the score is in 0..8 and the name is its category's; `HandFacts.EvaluateCategory` gives the category against the reference `HandFacts.Category`, and the `TieBreaks.*Values` lemmas give the tie-break list of each category |
| HandEval.Classify | src/components/PokerGame.tsx:76-121 | the score is in 0..8 and the name is the category name of the score |
| HandEval.FourOfAKind | src/components/PokerGame.tsx:84-87 | score 7 with its name; the kicker `kickers[0]` exists because of the fifth card |
| HandEval.BelowFourOfAKind | src/components/PokerGame.tsx:89-121 | after Four of a Kind the score is in 0..6, with its name |
| HandEval.BelowFullHouse | src/components/PokerGame.tsx:95-121 | after Full House the score is in 0..5, with its name |
| HandEval.BelowThreeOfAKind | src/components/PokerGame.tsx:109-121 | after Three of a Kind the score is in 0..2, with its name |
| HandEval.TwoPair | src/components/PokerGame.tsx:109-113 | score 2 with its name; the `kicker!` exists because of the fifth card |
| HandEval.CountsAtMostLength | src/components/PokerGame.tsx:42-45 | the counts of one or two values add up to at most the number of cards |
| HandEval.ThirdValueExists | src/components/PokerGame.tsx:111 | when two values do not fill the pool, a third value occurs |
| HandEval.EvaluateHand | src/components/PokerGame.tsx:38-122 | `evaluateHand(hand, community)` equals `Evaluate(hand + community)` and has a score in 0..8 named by its category |
| Straights.WindowTest | src/components/PokerGame.tsx:66-67 | on distinct descending values, `slice[0] - slice[4] === 4` holds exactly when the window is a run of five consecutive values |
| Straights.WindowFromNone | src/components/PokerGame.tsx:65-72 | the scan from position `i` finds nothing exactly when no run of five is headed at or after `i` |
| Straights.WindowFromSome | src/components/PokerGame.tsx:65-72 | a window the scan finds is the first run headed at or after the start |
| Straights.WheelHasFive | src/components/PokerGame.tsx:60-61 | the wheel values imply at least five distinct values, so the length test never hides a wheel |
| Straights.NoWindowNoRun | src/components/PokerGame.tsx:65-72 | when the scan finds nothing, there is no run of five at all |
| Straights.WindowIsHighestRun | src/components/PokerGame.tsx:65-72 | when the scan finds a window, it is the run with the highest top value |
| Straights.StraightOfSpec | src/components/PokerGame.tsx:57-74 | a straight is found exactly when the values hold the wheel or a run of five; with the wheel it is `[5, 4, 3, 2, 1]` even if a higher run exists; otherwise it is the highest run |
| HandFacts.FlushSuitAgrees | src/components/PokerGame.tsx:54 | the search over `suitCounts` finds a suit exactly when some suit has five or more cards |
| HandFacts.FlushSuitTruthy | src/components/PokerGame.tsx:54-55 | on cards of the deck's suits the suit found is one of the four suit symbols, a non-empty string, so `isFlush = !!flushSuit` holds exactly when a suit is found |
| HandFacts.FindCountAgrees | src/components/PokerGame.tsx:82-83 | `groups.find(v => rankCounts[v] === k)` finds a value exactly when some value occurs exactly `k` times |
| HandFacts.PairListAgrees | src/components/PokerGame.tsx:90 | a descending list of exactly the values seen twice is non-empty exactly when a pair exists, and has two or more entries exactly when two pairs exist |
| HandFacts.PairsAgree | src/components/PokerGame.tsx:90 | `pairs` is non-empty exactly when some value occurs exactly twice, and has two entries or more exactly when two values do |
| HandFacts.Category | src/components/PokerGame.tsx:76-121 | the independent reference for the category, in 0..8: the first of the source's tests that holds, each stated as an existence claim (a value seen exactly `k` times, a suit with five cards, a run of five consecutive values) instead of the evaluator's filter and find chains |
| HandFacts.EvaluateCategory | src/components/PokerGame.tsx:76-121 | the score is the first-match category of an independent reference (any straight and any flush 8, a value seen 4 times 7, exactly 3 and exactly 2 6, flush 5, straight 4, exactly 3 3, two pairs 2, a pair 1, else 0), with that category's name |
| HandFacts.TwoValues | src/components/PokerGame.tsx:60 | two values make no straight, no three or four of a kind and no two pairs |
| HandFacts.ShortPoolNoFlush | src/components/PokerGame.tsx:54 | fewer than five cards make no flush |
| HandFacts.HoleCardsOnly | src/components/PokerGame.tsx:38-122 | two hole cards alone score 0 or 1 |
| TieBreaks.TakeTop | src/components/PokerGame.tsx:106 | the first `n` of a strictly descending listing of a set are its `n` highest elements |
| TieBreaks.WithoutTop | src/components/PokerGame.tsx:105-106 | `uniqueValues.filter(v => v !== x).slice(0, n)` lists the `n` highest values other than `x` |
| TieBreaks.FindCountTop | src/components/PokerGame.tsx:83 | the value `groups.find` returns is the highest value seen exactly `k` times |
| TieBreaks.WithCountTop | src/components/PokerGame.tsx:90 | the first `n` of `pairs` are the `n` highest values seen exactly `k` times |
| TieBreaks.FirstOutsideTop | src/components/PokerGame.tsx:111 | the kicker `find` returns is the highest value outside the given list |
| TieBreaks.EvaluateFour | src/components/PokerGame.tsx:83-87 | a score of 7 comes from the Four of a Kind branch, on the value `groups.find` returns |
| TieBreaks.QuadKickerExists | src/components/PokerGame.tsx:85-86 | a quad in a pool of five or more cards leaves a kicker |
| TieBreaks.FourOfAKindTop | src/components/PokerGame.tsx:83-86 | the Four of a Kind branch lists the quad's value, then the highest other value |
| TieBreaks.FourOfAKindValues | src/components/PokerGame.tsx:83-87 | Four of a Kind carries `[quad, kicker]`: the highest value seen four times and the highest other value |
| TieBreaks.EvaluateBelowFour | src/components/PokerGame.tsx:89-121 | a score of at most 6 means no value is seen four times |
| TieBreaks.EvaluateBelowFullHouse | src/components/PokerGame.tsx:95-121 | a score of at most 5 means there is no Full House in the source's sense |
| TieBreaks.EvaluateBelowThree | src/components/PokerGame.tsx:109-121 | a score of at most 2 means no flush, no straight and no value seen three times |
| TieBreaks.StraightBranch | src/components/PokerGame.tsx:76-102 | Straight Flush and Straight report the straight the detection found |
| TieBreaks.FoundStraight | src/components/PokerGame.tsx:57-74 | the straight found is the wheel's `[5, 4, 3, 2, 1]` when the wheel is present, else the highest run of five |
| TieBreaks.StraightValues | src/components/PokerGame.tsx:76-102 | a Straight Flush or a Straight carries `[5, 4, 3, 2, 1]` with the wheel present, otherwise the five values of the highest run |
| TieBreaks.FullHouseBranch | src/components/PokerGame.tsx:89-93 | a score of 6 means a value is seen exactly three times and one exactly twice, and the result is the branch's `[three, pairs[0]]` |
| TieBreaks.FullHouseTop | src/components/PokerGame.tsx:89-92 | `three` and `pairs[0]` are the highest values seen exactly three and exactly two times |
| TieBreaks.FullHouseValues | src/components/PokerGame.tsx:89-93 | Full House carries the highest value seen exactly three times and the highest value seen exactly twice |
| TieBreaks.PrefixIsTop | src/components/PokerGame.tsx:97 | what a non-increasing sequence leaves after its first `n` elements is at most its `n`-th element |
| TieBreaks.TakeFiveTop | src/components/PokerGame.tsx:97 | the first five of a descending arrangement are five (or all) of the values, and nothing left out is higher than the last one kept |
| TieBreaks.FlushValuesTop | src/components/PokerGame.tsx:96-97 | the flush values are the highest five values of the suit, descending |
| TieBreaks.FlushValuesOf | src/components/PokerGame.tsx:95-98 | Flush carries the flush values of a suit with at least five cards |
| TieBreaks.ThreeOfAKindValues | src/components/PokerGame.tsx:104-107 | Three of a Kind carries the highest value seen three times, then the two highest other values |
| TieBreaks.PairsKickerExists | src/components/PokerGame.tsx:111-112 | two pairs in five or more cards leave a kicker, so `kicker!` is defined |
| TieBreaks.TwoPairTop | src/components/PokerGame.tsx:109-113 | the Two Pair branch lists the two highest pairs and the highest value outside them |
| TieBreaks.TwoPairValues | src/components/PokerGame.tsx:109-113 | Two Pair carries `[high, low, kicker]`: the two highest values seen exactly twice and the highest other value |
| TieBreaks.OnePairBranch | src/components/PokerGame.tsx:115-119 | a score of 1 means `pairs` has exactly one entry, and the result is the branch's list |
| TieBreaks.OnlyPair | src/components/PokerGame.tsx:115-116 | when `pairs` is `[p]`, `p` is the only value seen exactly twice |
| TieBreaks.InWithCount | src/components/PokerGame.tsx:90 | a value is in `groups.filter(v => rankCounts[v] === k)` exactly when it is seen `k` times |
| TieBreaks.OnePairValues | src/components/PokerGame.tsx:115-119 | One Pair carries the only pair's value, then the three highest other values |
| TieBreaks.HighCardValues | src/components/PokerGame.tsx:121 | High Card carries the five (or all) highest distinct values |
| Showdown.FromOneDeckCards | src/components/PokerGame.tsx:25-27 | cards of one deck have known ranks, are deck cards and occur once each |
| Showdown.AtMostFourOfAValue | src/components/PokerGame.tsx:25-27 | no value occurs more than four times among cards of one deck |
| Showdown.OthersAtLeast | src/components/PokerGame.tsx:105 | when other values each occur at most `c` times, there are enough of them to fill the kicker list |
| Showdown.ValuesLengthBound | src/components/PokerGame.tsx:76-121 | for any pool the evaluator accepts, the tie-break list is at most 5, 2, 2, 5, 5, 3, 3, 4, 5 long for scores 8 down to 0, and exactly that long except for Three of a Kind, One Pair and High Card |
| Showdown.ShowdownValuesLength | src/components/PokerGame.tsx:76-121 | for seven cards from one deck the tie-break list has exactly its category's length |
| Showdown.ThreeOfAKindLength | src/components/PokerGame.tsx:104-107 | Three of a Kind in seven cards carries three values |
| Showdown.OnePairLength | src/components/PokerGame.tsx:115-119 | One Pair in seven cards carries four values |
| Showdown.OnePairOthers | src/components/PokerGame.tsx:117 | one pair among seven values, with no triple or quad, leaves five other values |
| Showdown.HighCardLength | src/components/PokerGame.tsx:121 | High Card in seven cards carries five values |
| Showdown.HighCardDistinct | src/components/PokerGame.tsx:121 | a High Card pool from one deck holds no value twice |
| Showdown.DistinctValuesCount | src/components/PokerGame.tsx:52 | values that each occur once give as many distinct values |
| Comparator.CompareFrom | src/components/PokerGame.tsx:244-249 | the loop over the tie-break lists from index `i`; `Comparator.CompareFromSpec` states its result |
| Comparator.Compare | src/components/PokerGame.tsx:242-250 | a higher score always sorts first (negative result) and a lower one last (positive result); `Comparator.CompareSign` states the full order |
| Comparator.CompareHands | src/components/PokerGame.tsx:242-250 | the comparison loop returns `Compare(a, b)`: the score difference, or the difference at the first index where the lists differ, or 0 |
| Comparator.CompareFromSpec | src/components/PokerGame.tsx:244-249 | the loop from index `i` returns 0 exactly when the lists agree from `i` on, and otherwise the sign of the first difference |
| Comparator.CompareSign | src/components/PokerGame.tsx:242-250 | negative exactly when the first hand ranks ahead (higher score, or same score and lexicographically higher values), positive exactly when the second does |
| Comparator.CompareSelf | src/components/PokerGame.tsx:242-250 | `compareHands(a, a) == 0` |
| Comparator.CompareFromAntisymmetric | src/components/PokerGame.tsx:244-249 | the loop with its arguments exchanged returns the opposite result |
| Comparator.CompareAntisymmetric | src/components/PokerGame.tsx:242-250 | `compareHands(a, b) == -compareHands(b, a)` on lists of equal length |
| Comparator.CompareZero | src/components/PokerGame.tsx:242-250 | a zero result (a chop) means the same score and the same values |
| Comparator.CompareFromTransitive | src/components/PokerGame.tsx:244-249 | "no later than" and "ahead of" chain through the loop |
| Comparator.CompareTransitive | src/components/PokerGame.tsx:242-250 | the order the comparator sorts by is transitive, and strictly so when one step is strict |
| Comparator.ShapedSameShape | src/components/PokerGame.tsx:242-244 | showdown results of the same score have lists of equal length, so the loop never reads past either list |
| Comparator.Insert | src/components/PokerGame.tsx:257 | inserting a result adds exactly it |
| Comparator.InsertSorted | src/components/PokerGame.tsx:257 | inserting into a sorted sequence keeps it sorted |
| Comparator.SortByHand | src/components/PokerGame.tsx:257 | the sort returns a permutation of the results in which each compares no later than the next |
| Ranking.RankAt | src/components/PokerGame.tsx:259-273 | the rank at position `i` lies in `1..i + 1` |
| Ranking.WithRank | src/components/PokerGame.tsx:268-270 | `{ ...currentResult, rank }`: the result at position `i` with its player and hand and the rank `Ranking.RankAt` gives; `Ranking.RankedEntry` and `Ranking.RankIsOnePlusAhead` state what that rank is |
| Ranking.RankAll | src/components/PokerGame.tsx:259-273 | one ranked entry per result; `Ranking.RankResults` shows the loop computes it |
| Ranking.RankResults | src/components/PokerGame.tsx:259-273 | the loop pushes one ranked entry per result, in order, with the result's player and hand and the rank at that position; empty input gives empty output |
| Ranking.RanksNonDecreasing | src/components/PokerGame.tsx:259-273 | the first rank is 1 and ranks never go down |
| Ranking.SortedPairs | src/components/PokerGame.tsx:257 | after the sort every result compares no later than every later one |
| Ranking.LaterNotAhead | src/components/PokerGame.tsx:257 | after the sort no later result ranks ahead of an earlier one |
| Ranking.TiedSameAhead | src/components/PokerGame.tsx:267 | hands that compare equal have the same hands ahead of them |
| Ranking.BeforeBreakAhead | src/components/PokerGame.tsx:267-270 | where a result does not tie with the one before it, every earlier result ranks ahead of it |
| Ranking.RankIsPositionOfFirstTie | src/components/PokerGame.tsx:259-273 | after the sort, the results ranked ahead of position `i` are exactly the first `rank - 1` |
| Ranking.RankIsOnePlusAhead | src/components/PokerGame.tsx:259-273 | competition ranking: each rank is one more than the number of results ranked ahead |
| Ranking.AheadInPermutation | src/components/PokerGame.tsx:257 | the number of results ahead of a hand does not depend on their order |
| Ranking.Ranks | src/components/PokerGame.tsx:257-273 | sorting then ranking gives one ranked entry per result; `Ranking.RanksSpec` states what the entries and ranks are |
| Ranking.RanksSpec | src/components/PokerGame.tsx:257-273 | the ranked results hold each result exactly once, none ranks ahead of the one before it, and each rank is one more than the number of results ahead of it, whatever order the sort leaves ties in |
| Ranking.NumberedRanks | src/components/PokerGame.tsx:253-273 | with players numbered `index + 1`, each ranked result carries the hand of the player it names |
| Ranking.RankedEntry | src/components/PokerGame.tsx:257-273 | the `i`-th ranked result is one of the results, ranked one more than the number of results ahead of it |
| Ranking.RankOrder | src/components/PokerGame.tsx:259-273 | tied hands share a rank, and a hand ranked ahead of another gets a smaller rank |
| Ranking.TieAheadOfBoth | src/components/PokerGame.tsx:267 | a hand ahead of one of two tied hands is ahead of the other |
| Ordinal.JsRem | src/components/PokerGame.tsx:131-132 | JavaScript's truncating `%`: equal to the Euclidean remainder for `a >= 0`, and to `-((-a) % b)`, in `-b + 1..0`, for negative `a` |
| Ordinal.NatToString | src/components/PokerGame.tsx:131-136 | the decimal numeral: digits only, no leading zero, reads back as the number, last digit the units digit, the one before it the tens digit |
| Ordinal.IntToString | src/components/PokerGame.tsx:131-136 | `${rank}`: the numeral, with a minus sign for negative numbers |
| Ordinal.GetRankSuffix | src/components/PokerGame.tsx:130-138 | the numeral of the rank followed by a two-letter suffix; `Ordinal.GetRankSuffixByDigits` states which suffix |
| Ordinal.GetRankSuffixByDigits | src/components/PokerGame.tsx:130-138 | `getRankSuffix` is the numeral followed by the English ordinal suffix read off its last two digits ("th" after a tens digit 1, else "st", "nd", "rd" for 1, 2, 3, else "th"); non-positive ranks take "th" |
| Ordinal.LastTwoDigits | src/components/PokerGame.tsx:131 | `rank % 100` is made of the tens and units digits |
| Game.HoleCards | src/components/PokerGame.tsx:209-214 | `n` hands of two cards each; `Game.DealingDone` shows the dealing loops produce them |
| Game.Evaluations | src/components/PokerGame.tsx:253-255 | one entry per player, the `k`-th numbered `k + 1`; `Game.ShowdownResultsSpec` states which hands they carry |
| Game.ShowdownResults | src/components/PokerGame.tsx:253-273 | one ranked result per player; `Game.ShowdownResultsSpec` states what they hold |
| Game.HeldUpdate | src/components/PokerGame.tsx:212 | giving player `j` one more card adds exactly that card to the cards held |
| Game.HeldEmpty | src/components/PokerGame.tsx:207 | players with empty hands hold nothing |
| Game.HeldSize | src/components/PokerGame.tsx:209-214 | with two cards each, `2 * n` cards are held |
| Game.NewDeck | src/components/PokerGame.tsx:206 | `shuffleDeck(createDeck())` has 52 cards, each card of the deck once |
| Game.DealingStarts | src/components/PokerGame.tsx:206-207 | before the deal every hand is empty and the deck is the whole shuffled deck |
| Game.DealingStep | src/components/PokerGame.tsx:211-212 | `newPlayers[j].push(newDeck.pop())` moves the last card of the deck to player `j` and keeps the loop state |
| Game.PopHeld | src/components/PokerGame.tsx:211-212 | moving the deck's last card into a hand keeps every card |
| Game.PopDeck | src/components/PokerGame.tsx:211 | the popped card is the next one from the end of the shuffled deck, and what is left is a prefix of it |
| Game.PopHands | src/components/PokerGame.tsx:212 | player `j` receives the card of round `i`, and the other hands are unchanged |
| Game.DealingRound | src/components/PokerGame.tsx:209-210 | after the last player of a round, the next round starts |
| Game.DealingDone | src/components/PokerGame.tsx:209-214 | after both rounds player `k` holds the cards popped `k`-th and `(n + k)`-th, `52 - 2n` cards remain as a prefix of the shuffled deck, and no card is lost |
| Game.HandsDone | src/components/PokerGame.tsx:209-214 | two rounds give every player both hole cards |
| Game.DealHoleCards | src/components/PokerGame.tsx:207-214 | the nested dealing loops end in the state `DealingDone` describes |
| Game.MoveFront | src/components/PokerGame.tsx:227-236 | `splice(0, k)` from the deck onto the community cards keeps every card |
| Game.StartTable | src/components/PokerGame.tsx:205-221 | the table `startGame` leaves satisfies the invariant, with every card of the deck in exactly one place |
| Game.ShowdownResultsSpec | src/components/PokerGame.tsx:252-277 | the showdown results hold every player's evaluation exactly once, under the player's number; none ranks ahead of the one before it; each rank is one more than the number of players whose hands rank ahead |
| Game.PokerGame.constructor | src/components/PokerGame.tsx:198-203 | the initial state: two players, setup, no cards and no results |
| Game.PokerGame.SetNumPlayers | src/components/PokerGame.tsx:317-320 | a parsed value from 2 to 6 becomes the number of players; any other value is ignored; nothing else changes |
| Game.PokerGame.StartGame | src/components/PokerGame.tsx:205-221 | from setup: the deck is the first `52 - 2n` cards of the shuffled deck, the hands are the cards popped from its end round-robin, no community cards or results, pre-flop, invariant kept |
| Game.PokerGame.NextStage | src/components/PokerGame.tsx:223-240 | pre-flop moves the first three deck cards to the community, flop and turn move one more each; any other stage changes nothing; hands and results never change; invariant kept |
| Game.PokerGame.RiverPools | src/components/PokerGame.tsx:252-255 | at the river every player's hole cards with the community cards are seven distinct deck cards, which the evaluator accepts and whose results the comparator can compare |
| Game.PokerGame.ShowResults | src/components/PokerGame.tsx:252-277 | from the river: the results are the ranked evaluations `ShowdownResults`, the stage is showdown, the cards are unchanged, invariant kept |
| Game.PokerGame.ResetGame | src/components/PokerGame.tsx:279-281 | back to setup with everything else unchanged, invariant kept |

## Left out

- `isFlipped`, `flipCard`, `renderCard`, `HandDetails` and all JSX: display only. A card is its suit and rank; `startGame` and `nextStage` set `isFlipped` on the cards they deal, which the model drops.
- The style sheet written into `document` at the end of the file: display only.
- `Math.random`: the shuffle takes a sequence of picks instead, pick `i` in `0..i`, as `Math.floor(Math.random() * (i + 1))` gives. Whether the picks are uniform is not modelled.
- React's rendering, effects and asynchronous `setState`: each handler is one method that assigns the fields at its end. Two handlers running on the same stale state is not modelled.
- `parseInt(e.target.value, 10)` of the number-of-players input: the method takes the parsed value as an integer. `NaN` fails the range test like any value outside 2..6.
- The stage conditions of the buttons: `Game.PokerGame.StartGame` requires setup (its button exists only there), `Game.PokerGame.ShowResults` requires the river and `Game.PokerGame.SetNumPlayers` requires setup. `nextStage` and `resetGame` are modelled at every stage.
- `Array.prototype.sort` in `showResults`: modelled as an insertion sort that puts each result in front of the ties already placed, so it is stable. JavaScript's sort is stable as well, and `compareHands` is a consistent comparator on showdown results (`Comparator.CompareAntisymmetric`, `Comparator.CompareTransitive`), so a stable sort's output is unique: the model lists tied results in exactly JavaScript's order. Stability itself is not stated as a lemma; `Ranking.RanksSpec` holds whatever order ties are in.
- The order of `Object.keys(suitCounts)` in the flush search: in at most seven cards at most one suit has five, so the order cannot matter.
- The order of `Object.entries(RANK_VALUES)` in `getRankName`: the values are distinct, so the order cannot matter.
- `groups` (the keys of `rankCounts` sorted descending) is the same sequence as `uniqueValues` and is modelled by it.
- The unused `flushCards` at line 77.
- HandEval.EvaluateHand: requires known ranks, the four deck suits, at most seven cards and not exactly four. A card whose suit is the empty string would make `!!flushSuit` false although a suit was found, and a suit named like an `Object.prototype` member (`constructor`, `__proto__`) is counted differently by `suitCounts`; pools with such suits are not modelled. With four cards, two pairs leave the source's `kicker!` undefined and a quad leaves `kickers[0]` undefined. The game only evaluates two hole cards plus five community cards.
- Comparator.CompareHands: requires that the second list is at least as long as the first when the scores are equal. Otherwise the source compares against `undefined`, a case the game never reaches, since equal-score showdown results have equally long lists (`Showdown.ShowdownValuesLength`).
- Comparator.SortByHand: requires every result to have its category's showdown length (`Uniform`), as all results of a showdown do; the sort of results of other shapes is not modelled. `Ranking.RankResults`, `Ranking.Ranks` and `Game.ShowdownResults` require the same, which `Game.PokerGame.RiverPools` establishes for the only call, from `showResults`.
- `getRankSuffix` on non-integers, and JavaScript's number width: ranks are small positive integers.
- The other files of the repository: the `InvadersGame` component, pages, routing, configuration and static content are not part of this model.
