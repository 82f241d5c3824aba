/** The dealing state machine of the `PokerGame` component (src/components/PokerGame.tsx):
    setup, pre-flop, flop, turn, river, showdown and back to setup. React's `setState` calls
    become assignments to the fields of a `PokerGame` object. Every card of the deck is, at
    every stage after the first deal, in exactly one of the deck, a player's hand or the
    community cards. */
module Game {
  import opened Cards
  import opened Shuffle
  import opened HandEval
  import opened Showdown
  import opened Comparator
  import opened Ranking

  /** `GameStage`. */
  datatype Stage = Setup | PreFlop | Flop | Turn | River | Showdown

  /** The number of community cards on the table at each stage after the deal. */
  function CommunitySize(stage: Stage): nat {
    match stage
    case Setup => 0
    case PreFlop => 0
    case Flop => 3
    case Turn => 4
    case River => 5
    case Showdown => 5
  }

  /** All cards held by the players. */
  function Held(players: seq<seq<Card>>): multiset<Card> {
    if players == [] then multiset{} else multiset(players[0]) + Held(players[1..])
  }

  /** Giving one more card to player `j` adds that card to the cards held. */
  lemma {:induction false} HeldUpdate(players: seq<seq<Card>>, j: nat, c: Card)
    requires j < |players|
    ensures Held(players[j := players[j] + [c]]) == Held(players) + multiset{c}
  {
    var q := players[j := players[j] + [c]];
    if j == 0 {
      assert q[1..] == players[1..];
    } else {
      assert q[1..] == players[1..][j - 1 := players[j] + [c]];
      HeldUpdate(players[1..], j - 1, c);
    }
  }

  /** Players with empty hands hold nothing. */
  lemma {:induction false} HeldEmpty(players: seq<seq<Card>>)
    requires forall k :: 0 <= k < |players| ==> players[k] == []
    ensures Held(players) == multiset{}
  {
    if players != [] {
      HeldEmpty(players[1..]);
    }
  }

  /** Each player's hand is part of the cards held. */
  lemma {:induction false} HeldContains(players: seq<seq<Card>>, k: nat)
    requires k < |players|
    ensures multiset(players[k]) <= Held(players)
  {
    if k > 0 {
      HeldContains(players[1..], k - 1);
    }
  }

  /** When every player holds two cards, `2 * |players|` cards are held. */
  lemma {:induction false} HeldSize(players: seq<seq<Card>>)
    requires forall k :: 0 <= k < |players| ==> |players[k]| == 2
    ensures |Held(players)| == 2 * |players|
  {
    if players != [] {
      HeldSize(players[1..]);
    }
  }

  /** The first `m` hole cards of player `k` of `n`, dealt from the end of `s`: round `0`
      gives `s[51 - k]` and round `1` gives `s[51 - n - k]`. */
  function Holes(s: seq<Card>, n: nat, k: nat, m: nat): seq<Card>
    requires |s| == 52 && k < n <= 6 && m <= 2
  {
    if m == 0 then [] else if m == 1 then [s[51 - k]] else [s[51 - k], s[51 - n - k]]
  }

  /** `shuffleDeck(createDeck())` for the given draws: 52 cards, each card of the deck once. */
  ghost function NewDeck(picks: seq<nat>): (s: seq<Card>)
    requires ValidPicks(picks, 52)
    ensures |s| == 52 && IsOneDeck(multiset(s))
  {
    ShuffledPermutes(CreateDeck(), picks);
    OneDeckIsCreateDeck(multiset(Shuffled(CreateDeck(), picks)));
    Shuffled(CreateDeck(), picks)
  }

  /** The hands after the deal: player `k` of `n` holds `s[51 - k]`, popped in the first
      round, and `s[51 - n - k]`, popped in the second. */
  function HoleCards(s: seq<Card>, n: nat): (players: seq<seq<Card>>)
    requires |s| == 52 && n <= 6
    ensures |players| == n
    ensures forall k :: 0 <= k < n ==> |players[k]| == 2
  {
    seq(n, k requires 0 <= k < n => [s[51 - k], s[51 - n - k]])
  }

  /** The number of cards popped after `j` cards of round `i`. */
  function Popped(n: nat, i: nat, j: nat): nat {
    (if i == 0 then 0 else if i == 1 then n else 2 * n) + j
  }

  /** The state of the dealing loops of `startGame` after `j` cards of round `i`: the deck
      is the shuffled deck `s` without its last `i * n + j` cards, and they are in the
      players' hands, round-robin. */
  predicate Dealing(s: seq<Card>, n: nat, players: seq<seq<Card>>, deck: seq<Card>, i: nat, j: nat) {
    |s| == 52 && 2 <= n <= 6 && i <= 2 && j <= n && (i < 2 || j == 0) &&
    |players| == n &&
    |deck| == 52 - Popped(n, i, j) && deck == s[..|deck|] &&
    (forall k :: 0 <= k < n ==> players[k] == Holes(s, n, k, if k < j then i + 1 else i)) &&
    Held(players) + multiset(deck) == multiset(s)
  }

  /** Before the deal every hand is empty and the deck is the whole shuffled deck. */
  lemma DealingStarts(s: seq<Card>, n: nat)
    requires |s| == 52 && 2 <= n <= 6
    ensures Dealing(s, n, seq(n, _ => []), s, 0, 0)
  {
    HeldEmpty(seq(n, _ => []));
  }

  /** `newPlayers[j].push(newDeck.pop())` moves the last card of the deck to player `j`. */
  lemma DealingStep(s: seq<Card>, n: nat, players: seq<seq<Card>>, deck: seq<Card>, i: nat, j: nat)
    requires Dealing(s, n, players, deck, i, j) && i < 2 && j < n
    ensures deck != []
    ensures Dealing(s, n, players[j := players[j] + [deck[|deck| - 1]]], deck[..|deck| - 1], i, j + 1)
  {
    PopDeck(s, deck, n, i, j);
    var card := deck[|deck| - 1];
    PopHands(s, n, players, i, j, card);
    PopHeld(s, players, deck, j);
  }

  /** Moving the last card of the deck into hand `j` keeps every card. */
  lemma PopHeld(s: seq<Card>, players: seq<seq<Card>>, deck: seq<Card>, j: nat)
    requires Held(players) + multiset(deck) == multiset(s) && deck != [] && j < |players|
    ensures Held(players[j := players[j] + [deck[|deck| - 1]]]) + multiset(deck[..|deck| - 1]) == multiset(s)
  {
    var card := deck[|deck| - 1];
    assert deck == deck[..|deck| - 1] + [card];
    HeldUpdate(players, j, card);
  }

  /** The popped card is the next one from the end of `s`, and the rest is a prefix of `s`. */
  lemma PopDeck(s: seq<Card>, deck: seq<Card>, n: nat, i: nat, j: nat)
    requires |s| == 52 && 2 <= n <= 6 && i < 2 && j < n
    requires |deck| == 52 - Popped(n, i, j) && deck == s[..|deck|]
    ensures deck != []
    ensures |deck| - 1 == 51 - Popped(n, i, j) && |deck| - 1 == 52 - Popped(n, i, j + 1)
    ensures deck[|deck| - 1] == s[51 - Popped(n, i, j)]
    ensures deck[..|deck| - 1] == s[..|deck| - 1]
  {
  }

  /** Player `j` receives the card of round `i` and the other hands are unchanged. */
  lemma PopHands(s: seq<Card>, n: nat, players: seq<seq<Card>>, i: nat, j: nat, card: Card)
    requires |s| == 52 && 2 <= n <= 6 && i < 2 && j < n && |players| == n
    requires forall k :: 0 <= k < n ==> players[k] == Holes(s, n, k, if k < j then i + 1 else i)
    requires card == s[51 - Popped(n, i, j)]
    ensures var q := players[j := players[j] + [card]];
            |q| == n && forall k :: 0 <= k < n ==> q[k] == Holes(s, n, k, if k < j + 1 then i + 1 else i)
  {
    assert players[j] + [card] == Holes(s, n, j, i + 1);
  }

  /** After the last player of a round the next round starts. */
  lemma DealingRound(s: seq<Card>, n: nat, players: seq<seq<Card>>, deck: seq<Card>, i: nat)
    requires Dealing(s, n, players, deck, i, n) && i < 2
    ensures Dealing(s, n, players, deck, i + 1, 0)
  {
  }

  /** After both rounds each player holds `s[51 - k]` and `s[51 - n - k]`, the deck is the
      rest of `s`, and no card is lost. */
  lemma DealingDone(s: seq<Card>, n: nat, players: seq<seq<Card>>, deck: seq<Card>)
    requires Dealing(s, n, players, deck, 2, 0)
    ensures |players| == n && |deck| == 52 - 2 * n && deck == s[..52 - 2 * n]
    ensures players == HoleCards(s, n)
    ensures Held(players) + multiset(deck) == multiset(s)
  {
    HandsDone(s, n, players);
  }

  /** Two rounds give every player both hole cards. */
  lemma HandsDone(s: seq<Card>, n: nat, players: seq<seq<Card>>)
    requires |s| == 52 && 2 <= n <= 6 && |players| == n
    requires forall k :: 0 <= k < n ==> players[k] == Holes(s, n, k, 2)
    ensures players == HoleCards(s, n)
  {
    var h := HoleCards(s, n);
    forall k | 0 <= k < n ensures players[k] == h[k] {
      assert players[k] == Holes(s, n, k, 2);
    }
  }

  /** The dealing loops of `startGame`: two rounds, one card per player each, every card
      popped from the end of the shuffled deck `s`. */
  method DealHoleCards(s: seq<Card>, n: nat) returns (newPlayers: seq<seq<Card>>, newDeck: seq<Card>)
    requires |s| == 52 && 2 <= n <= 6
    ensures Dealing(s, n, newPlayers, newDeck, 2, 0)
  {
    newDeck := s;
    newPlayers := seq(n, _ => []);
    DealingStarts(s, n);
    var i := 0;
    while i < 2
      invariant 0 <= i <= 2 && Dealing(s, n, newPlayers, newDeck, i, 0)
    {
      var j := 0;
      while j < n
        invariant 0 <= j <= n && Dealing(s, n, newPlayers, newDeck, i, j)
      {
        DealingStep(s, n, newPlayers, newDeck, i, j);
        var card := newDeck[|newDeck| - 1];
        newDeck := newDeck[..|newDeck| - 1];
        newPlayers := newPlayers[j := newPlayers[j] + [card]];
        j := j + 1;
      }
      DealingRound(s, n, newPlayers, newDeck, i);
      i := i + 1;
    }
  }

  /** Moving the first `k` cards of the deck to the community cards keeps every card. */
  lemma MoveFront(deck: seq<Card>, held: multiset<Card>, community: seq<Card>, k: nat)
    requires k <= |deck|
    ensures multiset(deck[k..]) + held + multiset(community + deck[..k]) ==
            multiset(deck) + held + multiset(community)
  {
    assert deck == deck[..k] + deck[k..];
  }

  /** `evaluateHand(hand, community)` for every player, as `{ player: index + 1, hand }`. */
  function Evaluations(players: seq<seq<Card>>, community: seq<Card>): (e: seq<Entry>)
    requires forall k :: 0 <= k < |players| ==> EvaluablePool(players[k] + community)
    ensures |e| == |players|
    ensures forall k :: 0 <= k < |e| ==> e[k].player == k + 1
  {
    seq(|players|, k requires 0 <= k < |players| => Entry(k + 1, Evaluate(players[k] + community)))
  }

  /** The ranked results of `showResults`: the evaluations sorted by `compareHands`, each
      with the rank the ranking loop gives it. */
  function ShowdownResults(players: seq<seq<Card>>, community: seq<Card>): (r: seq<Ranked>)
    requires forall k :: 0 <= k < |players| ==> EvaluablePool(players[k] + community)
    requires Uniform(Evaluations(players, community))
    ensures |r| == |players|
  {
    Ranks(Evaluations(players, community))
  }

  /** Deck, hands and community cards together hold every card of the deck exactly once,
      and nothing else. */
  ghost predicate Conserved(deck: seq<Card>, players: seq<seq<Card>>, community: seq<Card>) {
    IsOneDeck(multiset(deck) + Held(players) + multiset(community))
  }

  /** The table after a deal: two cards per player, the community cards of the stage, the
      rest in the deck, nothing lost or duplicated, and one result per player at the
      showdown. */
  ghost predicate Dealt(n: int, stage: Stage, deck: seq<Card>, players: seq<seq<Card>>,
                        community: seq<Card>, results: seq<Ranked>) {
    |players| == n &&
    (forall k :: 0 <= k < |players| ==> |players[k]| == 2) &&
    |community| == CommunitySize(stage) &&
    |deck| == 52 - 2 * n - |community| &&
    Conserved(deck, players, community) &&
    (stage == Showdown ==> |results| == n)
  }

  /** Two to six players; every stage but setup is a dealt table; at setup the table is
      empty (before the first game) or still holds the last game's cards. */
  ghost predicate ValidTable(n: int, stage: Stage, deck: seq<Card>, players: seq<seq<Card>>,
                             community: seq<Card>, results: seq<Ranked>) {
    2 <= n <= 6 &&
    (stage != Setup ==> Dealt(n, stage, deck, players, community, results)) &&
    (Conserved(deck, players, community) || (deck == [] && players == [] && community == []))
  }

  /** The table that `startGame` leaves is valid. */
  lemma StartTable(s: seq<Card>, n: nat, players: seq<seq<Card>>, deck: seq<Card>)
    requires Dealing(s, n, players, deck, 2, 0) && IsOneDeck(multiset(s))
    ensures ValidTable(n, PreFlop, deck, players, [], [])
  {
    DealingDone(s, n, players, deck);
    assert multiset(deck) + Held(players) + multiset([]) == Held(players) + multiset(deck);
  }

  /** Recording one result per player turns a valid river table into a valid showdown. */
  lemma RiverToShowdown(n: int, deck: seq<Card>, players: seq<seq<Card>>, community: seq<Card>,
                        results: seq<Ranked>, newResults: seq<Ranked>)
    requires ValidTable(n, River, deck, players, community, results)
    requires |newResults| == |players|
    ensures ValidTable(n, Showdown, deck, players, community, newResults)
  {
  }

  /** The showdown results are the players' evaluations, each exactly once, listed so that
      no result ranks ahead of the one before it, and each result's rank is one more than the
      number of players whose hands rank ahead of it: the best hands, and every hand tied with
      them, get rank 1. */
  lemma ShowdownResultsSpec(players: seq<seq<Card>>, community: seq<Card>)
    requires forall k :: 0 <= k < |players| ==> EvaluablePool(players[k] + community)
    requires Uniform(Evaluations(players, community))
    ensures |ShowdownResults(players, community)| == |players|
    ensures multiset(Unranked(ShowdownResults(players, community))) == multiset(Evaluations(players, community))
    ensures forall r :: r in ShowdownResults(players, community) ==>
              1 <= r.player <= |players| && r.hand == Evaluations(players, community)[r.player - 1].hand
    ensures var r := ShowdownResults(players, community);
            forall i :: 0 < i < |r| ==> !Ahead(r[i].hand, r[i - 1].hand)
    ensures forall r :: r in ShowdownResults(players, community) ==>
              r.rank == 1 + AheadIn(Evaluations(players, community), r.hand)
  {
    RanksSpec(Evaluations(players, community));
    NumberedRanks(Evaluations(players, community));
  }

  class PokerGame {
    var numPlayers: int
    var stage: Stage
    var deck: seq<Card>
    var players: seq<seq<Card>>
    var community: seq<Card>
    var results: seq<Ranked>

    /** The invariant of the component's state. */
    ghost predicate Valid()
      reads this
    {
      ValidTable(numPlayers, stage, deck, players, community, results)
    }

    /** The initial state of the component: two players, setup, nothing dealt. */
    constructor()
      ensures Valid()
      ensures numPlayers == 2 && stage == Setup
      ensures deck == [] && players == [] && community == [] && results == []
    {
      numPlayers := 2;
      stage := Setup;
      deck := [];
      players := [];
      community := [];
      results := [];
    }

    /** The number-of-players input, shown only at setup: a value from 2 to 6 is taken,
        anything else is ignored. */
    method SetNumPlayers(val: int)
      requires Valid() && stage == Setup
      modifies this
      ensures Valid()
      ensures numPlayers == if 2 <= val <= 6 then val else old(numPlayers)
      ensures stage == old(stage) && deck == old(deck) && players == old(players)
      ensures community == old(community) && results == old(results)
    {
      if 2 <= val <= 6 {
        numPlayers := val;
      }
    }

    /** `startGame`, offered only at setup: shuffles a new deck with the given draws, deals
        two cards to each player round-robin, popping them from the end of the deck, and
        moves to pre-flop. */
    method StartGame(picks: seq<nat>)
      requires Valid() && stage == Setup && ValidPicks(picks, 52)
      modifies this
      ensures Valid() && stage == PreFlop && numPlayers == old(numPlayers)
      ensures deck == NewDeck(picks)[..52 - 2 * numPlayers]
      ensures players == HoleCards(NewDeck(picks), numPlayers)
      ensures community == [] && results == []
    {
        var s := ShuffleDeck(CreateDeck(), picks);
      assert s == NewDeck(picks);
      var newPlayers, newDeck := DealHoleCards(s, numPlayers);
      DealingDone(s, numPlayers, newPlayers, newDeck);
      StartTable(s, numPlayers, newPlayers, newDeck);
      players := newPlayers;
      deck := newDeck;
      community := [];
      results := [];
      stage := PreFlop;
    }

    /** `nextStage`: at pre-flop the first three cards of the deck become the flop, at the
        flop and the turn one more card is moved from the front of the deck to the community
        cards; at any other stage nothing changes. */
    method NextStage()
      requires Valid()
      modifies this
      ensures Valid()
      ensures old(stage) == PreFlop ==>
                stage == Flop && community == old(deck)[..3] && deck == old(deck)[3..]
      ensures old(stage) == Flop ==>
                stage == Turn && community == old(community) + old(deck)[..1] && deck == old(deck)[1..]
      ensures old(stage) == Turn ==>
                stage == River && community == old(community) + old(deck)[..1] && deck == old(deck)[1..]
      ensures old(stage) !in {PreFlop, Flop, Turn} ==>
                stage == old(stage) && community == old(community) && deck == old(deck)
      ensures numPlayers == old(numPlayers) && players == old(players) && results == old(results)
    {
      var newDeck := deck;
      if stage == PreFlop {
        MoveFront(deck, Held(players), community, 3);
        var flop := newDeck[..3];
        newDeck := newDeck[3..];
        community := flop;
        stage := Flop;
      } else if stage == Flop {
        MoveFront(deck, Held(players), community, 1);
        var turn := newDeck[..1];
        newDeck := newDeck[1..];
        community := community + turn;
        stage := Turn;
      } else if stage == Turn {
        MoveFront(deck, Held(players), community, 1);
        var river := newDeck[..1];
        newDeck := newDeck[1..];
        community := community + river;
        stage := River;
      }
      deck := newDeck;
    }

    /** At a dealt river every player's hole cards with the community cards are seven
        distinct cards of the deck, so every result is a showdown result. */
    lemma RiverPools()
      requires Valid() && stage == River
      ensures forall k :: 0 <= k < |players| ==>
                |players[k] + community| == 7 && FromOneDeck(players[k] + community)
      ensures forall k :: 0 <= k < |players| ==> EvaluablePool(players[k] + community)
      ensures Uniform(Evaluations(players, community))
    {
      forall k | 0 <= k < |players|
        ensures |players[k] + community| == 7 && FromOneDeck(players[k] + community)
      {
        HeldContains(players, k);
        assert Conserved(deck, players, community);
        OneDeckIsCreateDeck(multiset(deck) + Held(players) + multiset(community));
        assert multiset(players[k] + community) == multiset(players[k]) + multiset(community);
      }
      forall k | 0 <= k < |players| ensures EvaluablePool(players[k] + community) {
        ShowdownValuesLength(players[k] + community);
      }
      var e := Evaluations(players, community);
      forall x | x in e ensures ShowdownShaped(x.hand) {
        var k :| 0 <= k < |e| && e[k] == x;
        ShowdownValuesLength(players[k] + community);
      }
    }

    /** `showResults`, offered only at the river: evaluates every player's seven cards, sorts
        the results by `compareHands`, ranks them and moves to the showdown. */
    method ShowResults()
      requires Valid() && stage == River
      modifies this
      ensures Valid() && stage == Showdown
      ensures forall k :: 0 <= k < |players| ==> EvaluablePool(players[k] + community)
      ensures Uniform(Evaluations(players, community))
      ensures results == ShowdownResults(players, community)
      ensures numPlayers == old(numPlayers) && deck == old(deck)
      ensures players == old(players) && community == old(community)
    {
      RiverPools();
      var finalResults := Evaluations(players, community);
      var sorted := SortByHand(finalResults);
      var rankedResults := RankResults(sorted);
      RiverToShowdown(numPlayers, deck, players, community, results, rankedResults);
      results := rankedResults;
      stage := Showdown;
    }

    /** `resetGame`: back to setup; the cards of the last game stay where they are until the
        next deal. */
    method ResetGame()
      requires Valid()
      modifies this
      ensures Valid() && stage == Setup
      ensures numPlayers == old(numPlayers) && deck == old(deck) && players == old(players)
      ensures community == old(community) && results == old(results)
    {
      stage := Setup;
    }
  }
}
