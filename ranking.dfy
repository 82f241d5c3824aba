/** The ranking loop of `showResults` (src/components/PokerGame.tsx): after the sort, the
    first result gets rank 1, a result that ties with the one before keeps its rank, and any
    other result at position `i` gets rank `i + 1`, which gives competition ranks such as
    1, 2, 2, 4. */
module Ranking {
  import opened HandEval
  import opened Comparator

  /** `{ player, hand, rank }`. */
  datatype Ranked = Ranked(player: int, hand: HandResult, rank: int)

  /** Any two results in `s` can be compared either way round. */
  lemma UniformComparable(s: seq<Entry>, a: nat, b: nat)
    requires Uniform(s) && a < |s| && b < |s|
    ensures Comparable(s[a].hand, s[b].hand) && SameShape(s[a].hand, s[b].hand)
  {
    assert s[a] in s && s[b] in s;
    ShapedSameShape(s[a].hand, s[b].hand);
  }

  /** The rank the loop assigns at position `i`. */
  function RankAt(s: seq<Entry>, i: nat): (r: int)
    requires Uniform(s) && i < |s|
    ensures 1 <= r <= i + 1
  {
    if i == 0 then 1
    else
      UniformComparable(s, i, i - 1);
      if Compare(s[i].hand, s[i - 1].hand) == 0 then RankAt(s, i - 1) else i + 1
  }

  /** The entry at position `i` with its rank. */
  function WithRank(s: seq<Entry>, i: nat): Ranked
    requires Uniform(s) && i < |s|
  {
    Ranked(s[i].player, s[i].hand, RankAt(s, i))
  }

  /** Every entry of `s`, in order, with its rank. */
  function RankAll(s: seq<Entry>): (r: seq<Ranked>)
    requires Uniform(s)
    ensures |r| == |s|
  {
    seq(|s|, i requires 0 <= i < |s| => WithRank(s, i))
  }

  /** The ranking loop: one ranked entry per result, in the same order, with the player and
      hand copied and the rank of `RankAt`; no results give no ranked entries. */
  method RankResults(finalResults: seq<Entry>) returns (rankedResults: seq<Ranked>)
    requires Uniform(finalResults)
    ensures |rankedResults| == |finalResults|
    ensures forall i :: 0 <= i < |finalResults| ==> rankedResults[i] == WithRank(finalResults, i)
    ensures rankedResults == RankAll(finalResults)
  {
    rankedResults := [];
    if |finalResults| > 0 {
      rankedResults := [Ranked(finalResults[0].player, finalResults[0].hand, 1)];
      var i := 1;
      while i < |finalResults|
        invariant 1 <= i <= |finalResults|
        invariant |rankedResults| == i
        invariant forall k :: 0 <= k < i ==> rankedResults[k] == WithRank(finalResults, k)
      {
        var prevResult := finalResults[i - 1];
        var currentResult := finalResults[i];
        var prevRank := rankedResults[i - 1].rank;
        UniformComparable(finalResults, i, i - 1);
        var c := CompareHands(currentResult.hand, prevResult.hand);
        if c == 0 {
          rankedResults := rankedResults + [Ranked(currentResult.player, currentResult.hand, prevRank)];
        } else {
          rankedResults := rankedResults + [Ranked(currentResult.player, currentResult.hand, i + 1)];
        }
        i := i + 1;
      }
    }
    assert forall i :: 0 <= i < |finalResults| ==> rankedResults[i] == RankAll(finalResults)[i];
  }

  /** The first rank is 1 and ranks never go down along the sequence. */
  lemma RanksNonDecreasing(s: seq<Entry>, i: nat, j: nat)
    requires Uniform(s) && i <= j < |s|
    ensures RankAt(s, 0) == 1
    ensures RankAt(s, i) <= RankAt(s, j)
    decreases j
  {
    if i < j {
      RanksNonDecreasing(s, i, j - 1);
    }
  }

  // ---------------------------------------------------------------------------------------
  // Competition ranking

  /** In a sorted sequence every entry compares no later than every later one. */
  lemma {:induction false} SortedPairs(s: seq<Entry>, a: nat, b: nat)
    requires Uniform(s) && Sorted(s) && a <= b < |s|
    ensures Comparable(s[a].hand, s[b].hand) && Compare(s[a].hand, s[b].hand) <= 0
    decreases b - a
  {
    UniformComparable(s, a, b);
    if a == b {
      CompareSelf(s[a].hand);
    } else {
      SortedPairs(s, a + 1, b);
      UniformComparable(s, a, a + 1);
      UniformComparable(s, a + 1, b);
      CompareTransitive(s[a].hand, s[a + 1].hand, s[b].hand);
    }
  }

  /** `x` is not ahead of `y` exactly when `y` compares no later than `x`. */
  lemma NotAhead(x: HandResult, y: HandResult)
    requires SameShape(x, y)
    ensures Comparable(y, x) && (!Ahead(x, y) <==> Compare(y, x) <= 0)
  {
    CompareSign(y, x);
  }

  /** The entries ahead of `s[i]` are exactly those before position `k`. */
  predicate AheadExactlyBefore(s: seq<Entry>, i: nat, k: nat)
    requires i < |s|
  {
    k <= |s| &&
    (forall j :: 0 <= j < k ==> Ahead(s[j].hand, s[i].hand)) &&
    (forall j :: k <= j < |s| ==> !Ahead(s[j].hand, s[i].hand))
  }

  /** In a sorted sequence no later entry ranks ahead of an earlier one. */
  lemma LaterNotAhead(s: seq<Entry>, i: nat, j: nat)
    requires Uniform(s) && Sorted(s) && i <= j < |s|
    ensures !Ahead(s[j].hand, s[i].hand)
  {
    SortedPairs(s, i, j);
    UniformComparable(s, i, j);
    NotAhead(s[j].hand, s[i].hand);
  }

  /** Hands that compare equal have the same hands ahead of them. */
  lemma TiedSameAhead(x: HandResult, y: HandResult, z: HandResult)
    requires SameShape(x, y) && Compare(x, y) == 0
    ensures Ahead(z, x) <==> Ahead(z, y)
  {
    CompareZero(x, y);
  }

  /** In a sorted sequence where `s[i]` does not tie with `s[i - 1]`, every earlier entry
      ranks ahead of `s[i]`. */
  lemma BeforeBreakAhead(s: seq<Entry>, i: nat, j: nat)
    requires Uniform(s) && Sorted(s) && 0 < i < |s| && j < i
    requires Compare(s[i].hand, s[i - 1].hand) != 0
    ensures Ahead(s[j].hand, s[i].hand)
  {
    UniformComparable(s, i, i - 1);
    UniformComparable(s, i - 1, i);
    CompareAntisymmetric(s[i].hand, s[i - 1].hand);
    SortedPairs(s, j, i - 1);
    UniformComparable(s, j, i);
    CompareTransitive(s[j].hand, s[i - 1].hand, s[i].hand);
    CompareSign(s[j].hand, s[i].hand);
  }

  /** In a sorted sequence, the entries ahead of `s[i]` are the first `RankAt(s, i) - 1`. */
  lemma {:induction false} RankIsPositionOfFirstTie(s: seq<Entry>, i: nat)
    requires Uniform(s) && Sorted(s) && i < |s|
    ensures AheadExactlyBefore(s, i, RankAt(s, i) - 1)
    decreases i
  {
    var k := RankAt(s, i) - 1;
    var tie := i > 0 && Compare(s[i].hand, s[i - 1].hand) == 0;
    if tie {
      RankIsPositionOfFirstTie(s, i - 1);
      assert k == RankAt(s, i - 1) - 1;
    }
    forall j | 0 <= j < |s| ensures j < k <==> Ahead(s[j].hand, s[i].hand) {
      if i <= j {
        LaterNotAhead(s, i, j);
      } else if tie {
        UniformComparable(s, i, i - 1);
        TiedSameAhead(s[i].hand, s[i - 1].hand, s[j].hand);
      } else {
        BeforeBreakAhead(s, i, j);
      }
    }
  }

  /** The number of entries of `s` whose hands rank ahead of `h`. */
  function AheadIn(s: seq<Entry>, h: HandResult): nat {
    if s == [] then 0 else AheadIn(s[..|s| - 1], h) + if Ahead(s[|s| - 1].hand, h) then 1 else 0
  }

  /** When the entries ahead are exactly those before `k`, `k` of the first `n >= k` are. */
  lemma {:induction false} AheadInPrefix(s: seq<Entry>, i: nat, k: nat, n: nat)
    requires i < |s| && AheadExactlyBefore(s, i, k) && n <= |s|
    ensures AheadIn(s[..n], s[i].hand) == if n <= k then n else k
  {
    if n > 0 {
      assert s[..n][..n - 1] == s[..n - 1];
      AheadInPrefix(s, i, k, n - 1);
    }
  }

  /** Competition ranking: in a sorted sequence each entry's rank is one more than the
      number of entries whose hands rank ahead of it. */
  lemma RankIsOnePlusAhead(s: seq<Entry>, i: nat)
    requires Uniform(s) && Sorted(s) && i < |s|
    ensures RankAt(s, i) == 1 + AheadIn(s, s[i].hand)
  {
    RankIsPositionOfFirstTie(s, i);
    AheadInPrefix(s, i, RankAt(s, i) - 1, |s|);
    assert s[..|s|] == s;
  }

  /** The entries ahead in two concatenated sequences add up. */
  lemma {:induction false} AheadInConcat(a: seq<Entry>, b: seq<Entry>, h: HandResult)
    ensures AheadIn(a + b, h) == AheadIn(a, h) + AheadIn(b, h)
    decreases |b|
  {
    if b == [] {
      assert a + b == a;
    } else {
      assert (a + b)[..|a + b| - 1] == a + b[..|b| - 1];
      AheadInConcat(a, b[..|b| - 1], h);
    }
  }

  /** Removing the entry at `p` removes its share of the entries ahead. */
  lemma AheadInRemove(t: seq<Entry>, p: nat, h: HandResult)
    requires p < |t|
    ensures AheadIn(t, h) == AheadIn(t[..p] + t[p + 1..], h) + AheadIn([t[p]], h)
  {
    assert t == t[..p] + [t[p]] + t[p + 1..];
    AheadInConcat(t[..p] + [t[p]], t[p + 1..], h);
    AheadInConcat(t[..p], [t[p]], h);
    AheadInConcat(t[..p], t[p + 1..], h);
  }

  /** The number of entries ahead does not depend on their order. */
  lemma {:induction false} AheadInPermutation(s: seq<Entry>, t: seq<Entry>, h: HandResult)
    requires multiset(s) == multiset(t)
    ensures AheadIn(s, h) == AheadIn(t, h)
    decreases |s|
  {
    if s == [] {
      assert |t| == |multiset(t)| == 0;
    } else {
      var x := s[|s| - 1];
      var init := s[..|s| - 1];
      assert multiset(init) == multiset(s) - multiset{x} by {
        assert s == init + [x];
      }
      assert AheadIn(s, h) == AheadIn(init, h) + AheadIn([x], h) by {
        assert s == init + [x];
        AheadInConcat(init, [x], h);
      }
      assert x in multiset(t) by {
        assert x in multiset(s);
      }
      var p :| 0 <= p < |t| && t[p] == x;
      var rest := t[..p] + t[p + 1..];
      assert multiset(rest) == multiset(t) - multiset{x} by {
        assert t == t[..p] + [x] + t[p + 1..];
      }
      AheadInPermutation(init, rest, h);
      AheadInRemove(t, p, h);
    }
  }

  /** The results sorted by `compareHands`, each with the rank the loop gives it. */
  function Ranks(e: seq<Entry>): (r: seq<Ranked>)
    requires Uniform(e)
    ensures |r| == |e|
  {
    RankAll(SortByHand(e))
  }

  /** A ranked result without its rank. */
  function Unranked(rs: seq<Ranked>): seq<Entry> {
    seq(|rs|, i requires 0 <= i < |rs| => Entry(rs[i].player, rs[i].hand))
  }

  /** The ranked results are the results, each exactly once, listed so that none ranks ahead
      of the one before it, each with one more than the number of results ahead of it. */
  lemma RanksSpec(e: seq<Entry>)
    requires Uniform(e)
    ensures |Ranks(e)| == |e|
    ensures multiset(Unranked(Ranks(e))) == multiset(e)
    ensures forall x :: x in Ranks(e) ==> Entry(x.player, x.hand) in e
    ensures var r := Ranks(e); forall i :: 0 < i < |r| ==> !Ahead(r[i].hand, r[i - 1].hand)
    ensures forall x :: x in Ranks(e) ==> x.rank == 1 + AheadIn(e, x.hand)
  {
    var sorted := SortByHand(e);
    var r := Ranks(e);
    assert Unranked(r) == sorted;
    forall x | x in r
      ensures Entry(x.player, x.hand) in e
      ensures x.rank == 1 + AheadIn(e, x.hand)
    {
      var i :| 0 <= i < |r| && r[i] == x;
      RankedEntry(e, i);
    }
    forall i | 0 < i < |r| ensures !Ahead(r[i].hand, r[i - 1].hand) {
      UniformComparable(sorted, i - 1, i);
      CompareSign(sorted[i - 1].hand, sorted[i].hand);
    }
  }

  /** When the results are numbered by position, each ranked result carries the hand of
      the result with its number. */
  lemma NumberedRanks(e: seq<Entry>)
    requires Uniform(e) && forall k :: 0 <= k < |e| ==> e[k].player == k + 1
    ensures forall x :: x in Ranks(e) ==> 1 <= x.player <= |e| && x.hand == e[x.player - 1].hand
  {
    RanksSpec(e);
    forall x | x in Ranks(e) ensures 1 <= x.player <= |e| && x.hand == e[x.player - 1].hand {
      var k :| 0 <= k < |e| && e[k] == Entry(x.player, x.hand);
    }
  }

  /** The `i`-th ranked result is one of the results, ranked one more than the number of
      results ahead of it. */
  lemma RankedEntry(e: seq<Entry>, i: nat)
    requires Uniform(e) && i < |e|
    ensures var x := Ranks(e)[i];
            Entry(x.player, x.hand) in e && x.rank == 1 + AheadIn(e, x.hand)
  {
    var sorted := SortByHand(e);
    assert Entry(Ranks(e)[i].player, Ranks(e)[i].hand) == sorted[i];
    assert sorted[i] in multiset(e);
    RankIsOnePlusAhead(sorted, i);
    AheadInPermutation(sorted, e, sorted[i].hand);
  }

  /** In a sorted sequence, tied hands share a rank and a hand ranked ahead of another gets a
      smaller rank. */
  lemma RankOrder(s: seq<Entry>, a: nat, b: nat)
    requires Uniform(s) && Sorted(s) && a < |s| && b < |s|
    ensures Comparable(s[a].hand, s[b].hand)
    ensures Compare(s[a].hand, s[b].hand) == 0 ==> RankAt(s, a) == RankAt(s, b)
    ensures Compare(s[a].hand, s[b].hand) < 0 ==> RankAt(s, a) < RankAt(s, b)
  {
    UniformComparable(s, a, b);
    UniformComparable(s, b, a);
    RankIsPositionOfFirstTie(s, a);
    RankIsPositionOfFirstTie(s, b);
    var ka, kb := RankAt(s, a) - 1, RankAt(s, b) - 1;
    CompareAntisymmetric(s[a].hand, s[b].hand);
    CompareSign(s[a].hand, s[b].hand);
    if Compare(s[a].hand, s[b].hand) == 0 {
      if ka < kb {
        TieAheadOfBoth(s, ka, b, a);
      } else if kb < ka {
        TieAheadOfBoth(s, kb, a, b);
      }
    } else if Compare(s[a].hand, s[b].hand) < 0 {
      CompareSelf(s[a].hand);
      CompareSign(s[a].hand, s[a].hand);
      assert !Ahead(s[a].hand, s[a].hand);
      assert ka <= a < kb;
    }
  }

  /** An entry ahead of one of two tied hands is ahead of the other. */
  lemma TieAheadOfBoth(s: seq<Entry>, j: nat, a: nat, b: nat)
    requires Uniform(s) && j < |s| && a < |s| && b < |s|
    requires Comparable(s[a].hand, s[b].hand) && Compare(s[a].hand, s[b].hand) == 0
    requires Ahead(s[j].hand, s[a].hand)
    ensures Ahead(s[j].hand, s[b].hand)
  {
    UniformComparable(s, j, a);
    UniformComparable(s, j, b);
    UniformComparable(s, a, b);
    CompareSign(s[j].hand, s[a].hand);
    CompareTransitive(s[j].hand, s[a].hand, s[b].hand);
    CompareSign(s[j].hand, s[b].hand);
  }
}
