/** The Fisher-Yates shuffle of `shuffleDeck` (src/components/PokerGame.tsx). The random
    draw `Math.floor(Math.random() * (i + 1))` becomes a supplied sequence of picks. */
module Shuffle {
  import opened Cards

  /** `picks[i]` is the index drawn when position `i` is filled; it lies in `0..i`, as
      `Math.floor(Math.random() * (i + 1))` does. `picks[0]` is never used. */
  predicate ValidPicks(picks: seq<nat>, n: nat) {
    |picks| == n && forall i :: 0 <= i < n ==> picks[i] <= i
  }

  /** `s` with the elements at `i` and `j` exchanged. */
  function Swap<T>(s: seq<T>, i: nat, j: nat): seq<T>
    requires i < |s| && j < |s|
  {
    s[i := s[j]][j := s[i]]
  }

  /** A swap keeps the length and the elements. */
  lemma SwapPermutes<T>(s: seq<T>, i: nat, j: nat)
    requires i < |s| && j < |s|
    ensures |Swap(s, i, j)| == |s|
    ensures multiset(Swap(s, i, j)) == multiset(s)
  {
    if i != j {
      var u := s[i := s[j]];
      assert multiset(u) == multiset(s) - multiset{s[i]} + multiset{s[j]};
      assert multiset(u[j := s[i]]) == multiset(u) - multiset{u[j]} + multiset{s[i]};
    }
  }

  /** The swaps for positions `i, i - 1, ..., 1`, applied in that order. */
  function SwapsDownFrom(s: seq<Card>, picks: seq<nat>, i: nat): (r: seq<Card>)
    requires i < |s| && ValidPicks(picks, |s|)
    ensures |r| == |s|
    decreases i
  {
    if i == 0 then s else SwapsDownFrom(Swap(s, i, picks[i]), picks, i - 1)
  }

  /** The deck that `shuffleDeck` returns for the given draws. */
  function Shuffled(s: seq<Card>, picks: seq<nat>): (r: seq<Card>)
    requires ValidPicks(picks, |s|)
    ensures |r| == |s|
  {
    if |s| == 0 then s else SwapsDownFrom(s, picks, |s| - 1)
  }

  /** Every run of swaps only rearranges the deck. */
  lemma {:induction false} SwapsDownFromPermutes(s: seq<Card>, picks: seq<nat>, i: nat)
    requires i < |s| && ValidPicks(picks, |s|)
    ensures |SwapsDownFrom(s, picks, i)| == |s|
    ensures multiset(SwapsDownFrom(s, picks, i)) == multiset(s)
    decreases i
  {
    if i > 0 {
      SwapPermutes(s, i, picks[i]);
      SwapsDownFromPermutes(Swap(s, i, picks[i]), picks, i - 1);
    }
  }

  /** The shuffled deck is a rearrangement of its input, of the same length. */
  lemma ShuffledPermutes(s: seq<Card>, picks: seq<nat>)
    requires ValidPicks(picks, |s|)
    ensures |Shuffled(s, picks)| == |s|
    ensures multiset(Shuffled(s, picks)) == multiset(s)
  {
    if |s| > 0 {
      SwapsDownFromPermutes(s, picks, |s| - 1);
    }
  }

  /** `shuffleDeck`: copies the input into a fresh array and swaps position `i` with
      `picks[i]` for `i` from the last position down to 1. The input, a value, is unchanged. */
  method ShuffleDeck(deck: seq<Card>, picks: seq<nat>) returns (r: seq<Card>)
    requires ValidPicks(picks, |deck|)
    ensures r == Shuffled(deck, picks)
    ensures |r| == |deck| && multiset(r) == multiset(deck)
  {
    var newDeck := new Card[|deck|](k requires 0 <= k < |deck| => deck[k]);
    var i := |deck| - 1;
    assert newDeck[..] == deck;
    while i > 0
      invariant |deck| == 0 ==> i == -1
      invariant |deck| > 0 ==> 0 <= i < |deck| && SwapsDownFrom(newDeck[..], picks, i) == Shuffled(deck, picks)
    {
      var j := picks[i];
      ghost var before := newDeck[..];
      newDeck[i], newDeck[j] := newDeck[j], newDeck[i];
      assert newDeck[..] == Swap(before, i, j);
      i := i - 1;
    }
    r := newDeck[..];
    ShuffledPermutes(deck, picks);
  }
}
