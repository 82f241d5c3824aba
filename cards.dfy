/** Cards, the 52-card deck and the names of rank values (the constants, `createDeck` and
    `getRankName` of src/components/PokerGame.tsx). */
module Cards {

  /** The four suit symbols, in the order the deck is built. */
  const SUITS: seq<string> := ["♠", "♥", "♦", "♣"]

  /** The thirteen rank symbols, lowest first. */
  const RANKS: seq<string> := ["2", "3", "4", "5", "6", "7", "8", "9", "10", "J", "Q", "K", "A"]

  /** The numeric value of each rank symbol; the Ace plays high (14). */
  const RANK_VALUES: map<string, int> :=
    map["2" := 2, "3" := 3, "4" := 4, "5" := 5, "6" := 6, "7" := 7, "8" := 8, "9" := 9,
        "10" := 10, "J" := 11, "Q" := 12, "K" := 13, "A" := 14]

  /** A card is its suit symbol and its rank symbol, nothing more. The source's `isFlipped`
      flag only drives the display. */
  datatype Card = Card(suit: string, rank: string)

  /** A card that belongs to the standard deck. */
  predicate IsDeckCard(c: Card) {
    c.suit in SUITS && c.rank in RANKS
  }

  /** The value table gives rank `RANKS[i]` the value `i + 2` and knows no other symbol. */
  lemma RankValuesTable()
    ensures forall i :: 0 <= i < |RANKS| ==> RANKS[i] in RANK_VALUES && RANK_VALUES[RANKS[i]] == i + 2
    ensures forall r :: r in RANK_VALUES <==> r in RANKS
  {
    assert RANK_VALUES.Keys == {"2", "3", "4", "5", "6", "7", "8", "9", "10", "J", "Q", "K", "A"};
  }

  /** The value of a card's rank. */
  function Value(c: Card): (v: int)
    requires c.rank in RANK_VALUES
    ensures 2 <= v <= 14
  {
    RankValuesTable();
    RANK_VALUES[c.rank]
  }

  /** Two rank symbols with the same value are the same symbol. */
  lemma RankValuesInjective(r1: string, r2: string)
    requires r1 in RANK_VALUES && r2 in RANK_VALUES
    requires RANK_VALUES[r1] == RANK_VALUES[r2]
    ensures r1 == r2
  {
    RankValuesTable();
    var i1 :| 0 <= i1 < |RANKS| && RANKS[i1] == r1;
    var i2 :| 0 <= i2 < |RANKS| && RANKS[i2] == r2;
  }

  /** The thirteen cards of one suit, lowest rank first (`RANKS.map`). */
  function SuitRow(suit: string): seq<Card> {
    seq(|RANKS|, k requires 0 <= k < |RANKS| => Card(suit, RANKS[k]))
  }

  /** `suits.flatMap(SuitRow)`. */
  function SuitRows(suits: seq<string>): seq<Card> {
    if suits == [] then [] else SuitRow(suits[0]) + SuitRows(suits[1..])
  }

  /** The unshuffled deck, suit-major: 52 cards. */
  function CreateDeck(): (d: seq<Card>)
    ensures |d| == 52
  {
    SuitRowsAt(SUITS);
    SuitRows(SUITS)
  }

  lemma {:induction false} SuitRowsAt(suits: seq<string>)
    ensures |SuitRows(suits)| == 13 * |suits|
    ensures forall i :: 0 <= i < 13 * |suits| ==> SuitRows(suits)[i] == Card(suits[i / 13], RANKS[i % 13])
  {
    if suits != [] {
      SuitRowsAt(suits[1..]);
      var rows := SuitRows(suits);
      forall i | 0 <= i < 13 * |suits|
        ensures rows[i] == Card(suits[i / 13], RANKS[i % 13])
      {
        if i >= 13 {
          assert rows[i] == SuitRows(suits[1..])[i - 13];
          assert (i - 13) / 13 == i / 13 - 1 && (i - 13) % 13 == i % 13;
        }
      }
    }
  }

  /** Distinct positions of a sequence without repeats hold each element once. */
  lemma {:induction false} NoRepeatsOnce<T>(s: seq<T>)
    requires forall i, j :: 0 <= i < j < |s| ==> s[i] != s[j]
    ensures forall x :: multiset(s)[x] == if x in s then 1 else 0
  {
    if s != [] {
      var init := s[..|s| - 1];
      NoRepeatsOnce(init);
      assert s == init + [s[|s| - 1]];
      assert s[|s| - 1] !in init;
      forall x ensures multiset(s)[x] == if x in s then 1 else 0 {
        assert multiset(s) == multiset(init) + multiset{s[|s| - 1]};
        assert x in s <==> x in init || x == s[|s| - 1];
      }
    }
  }

  /** Positions 0..51 are told apart by their suit index and rank index. */
  lemma DeckPositionsDiffer(i: int, j: int)
    requires 0 <= i < j < 52
    ensures i / 13 != j / 13 || i % 13 != j % 13
  {
    assert i == 13 * (i / 13) + i % 13;
    assert j == 13 * (j / 13) + j % 13;
  }

  lemma CreateDeckNoRepeats()
    ensures |CreateDeck()| == 52
    ensures forall i :: 0 <= i < 52 ==> CreateDeck()[i] == Card(SUITS[i / 13], RANKS[i % 13])
    ensures forall i, j :: 0 <= i < j < 52 ==> CreateDeck()[i] != CreateDeck()[j]
  {
    var d := CreateDeck();
    SuitRowsAt(SUITS);
    forall i, j | 0 <= i < j < 52 ensures d[i] != d[j] {
      DeckPositionsDiffer(i, j);
    }
  }

  lemma CreateDeckHasAll()
    ensures forall c :: c in CreateDeck() <==> IsDeckCard(c)
  {
    var d := CreateDeck();
    SuitRowsAt(SUITS);
    forall c | IsDeckCard(c) ensures c in d {
      var s :| 0 <= s < 4 && SUITS[s] == c.suit;
      var r :| 0 <= r < 13 && RANKS[r] == c.rank;
      assert (13 * s + r) / 13 == s && (13 * s + r) % 13 == r;
      assert d[13 * s + r] == c;
    }
  }

  /** `createDeck` yields 52 cards in suit-major order, and every (suit, rank) pair of
      SUITS x RANKS exactly once. */
  lemma CreateDeckSpec()
    ensures |CreateDeck()| == 52
    ensures forall i :: 0 <= i < 52 ==> CreateDeck()[i] == Card(SUITS[i / 13], RANKS[i % 13])
    ensures forall i, j :: 0 <= i < j < 52 ==> CreateDeck()[i] != CreateDeck()[j]
    ensures forall c :: c in CreateDeck() <==> IsDeckCard(c)
    ensures forall c :: multiset(CreateDeck())[c] == if IsDeckCard(c) then 1 else 0
  {
    CreateDeckNoRepeats();
    CreateDeckHasAll();
    NoRepeatsOnce(CreateDeck());
  }

  /** `m` holds every card of the standard deck exactly once and nothing else. */
  ghost predicate IsOneDeck(m: multiset<Card>) {
    forall c :: m[c] == if IsDeckCard(c) then 1 else 0
  }

  /** Holding every card of the deck once is holding the cards of `createDeck()`. */
  lemma OneDeckIsCreateDeck(m: multiset<Card>)
    ensures IsOneDeck(m) <==> m == multiset(CreateDeck())
  {
    CreateDeckSpec();
    if IsOneDeck(m) {
      assert forall c :: m[c] == multiset(CreateDeck())[c];
    }
  }

  /** The first rank symbol, from `i` on, whose value is `value`; "" when there is none. */
  function FindRankName(value: int, i: nat): string
    decreases |RANKS| - i
  {
    RankValuesTable();
    if i >= |RANKS| then ""
    else if RANK_VALUES[RANKS[i]] == value then RANKS[i]
    else FindRankName(value, i + 1)
  }

  lemma {:induction false} FindRankNameSpec(value: int, i: nat)
    requires i <= |RANKS|
    ensures i + 2 <= value <= 14 ==> FindRankName(value, i) == RANKS[value - 2]
    ensures value < i + 2 || value > 14 ==> FindRankName(value, i) == ""
    decreases |RANKS| - i
  {
    RankValuesTable();
    if i < |RANKS| {
      FindRankNameSpec(value, i + 1);
    }
  }

  /** `getRankName`: the symbol of a rank value, with 1 (the Ace of a 5-high straight)
      named "A" and any value outside the table named "". */
  function GetRankName(value: int): (name: string)
    ensures value == 1 ==> name == "A"
    ensures 2 <= value <= 14 ==> name in RANK_VALUES && RANK_VALUES[name] == value
    ensures (value < 1 || value > 14) ==> name == ""
  {
    FindRankNameSpec(value, 0);
    RankValuesTable();
    if value == 1 then "A" else FindRankName(value, 0)
  }

  /** `getRankName` inverts `RANK_VALUES`. */
  lemma GetRankNameInverts(rank: string)
    requires rank in RANK_VALUES
    ensures GetRankName(RANK_VALUES[rank]) == rank
  {
    RankValuesTable();
    RankValuesInjective(GetRankName(RANK_VALUES[rank]), rank);
  }
}
