/** `compareHands` of src/components/PokerGame.tsx and the sort of the showdown results by
    it. The category score decides first; equal scores are decided by the first differing
    tie-break value. A negative result puts the first hand ahead. */
module Comparator {
  import opened HandEval

  /** `compareHands(a, b)` reads `b.values[i]` for every index of `a.values`: with equal
      scores `b` must have at least as many tie-break values as `a`. */
  predicate Comparable(a: HandResult, b: HandResult) {
    a.score == b.score ==> |a.values| <= |b.values|
  }

  /** Results of the same category have equally long tie-break lists (as seven-card
      showdown results do), so they can be compared either way round. */
  predicate SameShape(a: HandResult, b: HandResult) {
    a.score == b.score ==> |a.values| == |b.values|
  }

  /** The comparison loop from index `i` on. */
  function CompareFrom(a: seq<int>, b: seq<int>, i: nat): int
    requires |a| <= |b| && i <= |a|
    decreases |a| - i
  {
    if i == |a| then 0
    else if a[i] != b[i] then b[i] - a[i]
    else CompareFrom(a, b, i + 1)
  }

  /** `compareHands(a, b)`. */
  function Compare(a: HandResult, b: HandResult): (r: int)
    requires Comparable(a, b)
    ensures a.score > b.score ==> r < 0
    ensures a.score < b.score ==> r > 0
  {
    if a.score != b.score then b.score - a.score else CompareFrom(a.values, b.values, 0)
  }

  /** `compareHands`: the score difference, or the difference at the first index where the
      tie-break values differ, or 0. */
  method CompareHands(handA: HandResult, handB: HandResult) returns (r: int)
    requires Comparable(handA, handB)
    ensures r == Compare(handA, handB)
  {
    if handA.score != handB.score {
      return handB.score - handA.score;
    }
    var i := 0;
    while i < |handA.values|
      invariant 0 <= i <= |handA.values|
      invariant CompareFrom(handA.values, handB.values, i) == CompareFrom(handA.values, handB.values, 0)
    {
      if handA.values[i] != handB.values[i] {
        return handB.values[i] - handA.values[i];
      }
      i := i + 1;
    }
    return 0;
  }

  // ---------------------------------------------------------------------------------------
  // A reference order

  /** `x` is lexicographically greater than `y` at the first index where they differ. */
  predicate LexGreater(x: seq<int>, y: seq<int>) {
    exists k :: 0 <= k < |x| && k < |y| && x[k] > y[k] && forall j :: 0 <= j < k ==> x[j] == y[j]
  }

  /** `a` ranks ahead of `b`: a higher category, or the same category and higher tie-break
      values at the first difference. */
  predicate Ahead(a: HandResult, b: HandResult) {
    a.score > b.score || (a.score == b.score && LexGreater(a.values, b.values))
  }

  /** The comparison loop reports the first difference from index `i` on. */
  lemma {:induction false} CompareFromSpec(a: seq<int>, b: seq<int>, i: nat)
    requires |a| <= |b| && i <= |a|
    ensures CompareFrom(a, b, i) == 0 <==> forall j :: i <= j < |a| ==> a[j] == b[j]
    ensures CompareFrom(a, b, i) < 0 <==>
              exists k :: i <= k < |a| && a[k] > b[k] && forall j :: i <= j < k ==> a[j] == b[j]
    ensures CompareFrom(a, b, i) > 0 <==>
              exists k :: i <= k < |a| && a[k] < b[k] && forall j :: i <= j < k ==> a[j] == b[j]
    decreases |a| - i
  {
    if i < |a| && a[i] == b[i] {
      CompareFromSpec(a, b, i + 1);
      var r := CompareFrom(a, b, i);
      if r < 0 {
        var k :| i + 1 <= k < |a| && a[k] > b[k] && forall j :: i + 1 <= j < k ==> a[j] == b[j];
        assert forall j :: i <= j < k ==> a[j] == b[j];
      }
      if r > 0 {
        var k :| i + 1 <= k < |a| && a[k] < b[k] && forall j :: i + 1 <= j < k ==> a[j] == b[j];
        assert forall j :: i <= j < k ==> a[j] == b[j];
      }
      if exists k :: i <= k < |a| && a[k] > b[k] && forall j :: i <= j < k ==> a[j] == b[j] {
        var k :| i <= k < |a| && a[k] > b[k] && forall j :: i <= j < k ==> a[j] == b[j];
        assert k != i;
      }
      if exists k :: i <= k < |a| && a[k] < b[k] && forall j :: i <= j < k ==> a[j] == b[j] {
        var k :| i <= k < |a| && a[k] < b[k] && forall j :: i <= j < k ==> a[j] == b[j];
        assert k != i;
      }
    }
  }

  /** A negative comparison means the first hand ranks ahead, a positive one the second, and
      0 an equal category with equal tie-break values. */
  lemma CompareSign(a: HandResult, b: HandResult)
    requires Comparable(a, b)
    ensures Compare(a, b) < 0 <==> Ahead(a, b)
    ensures Compare(a, b) > 0 <==> Ahead(b, a)
    ensures Compare(a, b) == 0 <==> a.score == b.score && a.values == b.values[..|a.values|]
  {
    if a.score == b.score {
      CompareFromSpec(a.values, b.values, 0);
      if a.values == b.values[..|a.values|] {
        assert forall j :: 0 <= j < |a.values| ==> a.values[j] == b.values[j];
      }
      if forall j :: 0 <= j < |a.values| ==> a.values[j] == b.values[j] {
        assert a.values == b.values[..|a.values|];
      }
    }
  }

  /** Showdown results of the same category have equally long lists. */
  lemma ShapedSameShape(a: HandResult, b: HandResult)
    requires ShowdownShaped(a) && ShowdownShaped(b)
    ensures SameShape(a, b) && Comparable(a, b)
  {
  }

  /** A hand compares equal to itself. */
  lemma CompareSelf(a: HandResult)
    ensures Compare(a, a) == 0
  {
    CompareFromSpec(a.values, a.values, 0);
  }

  /** The loop from `i` on, with the arguments exchanged, gives the opposite result. */
  lemma {:induction false} CompareFromAntisymmetric(a: seq<int>, b: seq<int>, i: nat)
    requires |a| == |b| && i <= |a|
    ensures CompareFrom(a, b, i) == -CompareFrom(b, a, i)
    decreases |a| - i
  {
    if i < |a| && a[i] == b[i] {
      CompareFromAntisymmetric(a, b, i + 1);
    }
  }

  /** Exchanging the hands negates the comparison. */
  lemma CompareAntisymmetric(a: HandResult, b: HandResult)
    requires SameShape(a, b)
    ensures Compare(a, b) == -Compare(b, a)
  {
    if a.score == b.score {
      CompareFromAntisymmetric(a.values, b.values, 0);
    }
  }

  /** With lists of equal length, a zero comparison means an equal category and equal
      tie-break values: a chop. */
  lemma CompareZero(a: HandResult, b: HandResult)
    requires SameShape(a, b)
    ensures Compare(a, b) == 0 <==> a.score == b.score && a.values == b.values
  {
    CompareSign(a, b);
  }

  /** "No later than" and "ahead of" chain through the comparison loop. */
  lemma {:induction false} CompareFromTransitive(a: seq<int>, b: seq<int>, c: seq<int>, i: nat)
    requires |a| == |b| == |c| && i <= |a|
    requires CompareFrom(a, b, i) <= 0 && CompareFrom(b, c, i) <= 0
    ensures CompareFrom(a, c, i) <= 0
    ensures CompareFrom(a, b, i) < 0 || CompareFrom(b, c, i) < 0 ==> CompareFrom(a, c, i) < 0
    decreases |a| - i
  {
    if i < |a| && a[i] == b[i] && b[i] == c[i] {
      CompareFromTransitive(a, b, c, i + 1);
    }
  }

  /** The order the comparison sorts by is transitive. */
  lemma CompareTransitive(a: HandResult, b: HandResult, c: HandResult)
    requires SameShape(a, b) && SameShape(b, c) && SameShape(a, c)
    requires Compare(a, b) <= 0 && Compare(b, c) <= 0
    ensures Compare(a, c) <= 0
    ensures Compare(a, b) < 0 || Compare(b, c) < 0 ==> Compare(a, c) < 0
  {
    if a.score == b.score == c.score {
      CompareFromTransitive(a.values, b.values, c.values, 0);
    }
  }

  // ---------------------------------------------------------------------------------------
  // Sorting the showdown results

  /** `{ player: index + 1, hand: evaluateHand(...) }`. */
  datatype Entry = Entry(player: int, hand: HandResult)

  /** Every hand in `s` is a showdown result, so any two can be compared either way round. */
  predicate Uniform(s: seq<Entry>) {
    forall x :: x in s ==> ShowdownShaped(x.hand)
  }

  /** Each entry compares no later than the next. */
  predicate Sorted(s: seq<Entry>)
    requires Uniform(s)
  {
    forall i :: 0 < i < |s| ==> Compare(s[i - 1].hand, s[i].hand) <= 0
  }

  /** Entries drawn from a sequence of showdown results are showdown results. */
  lemma UniformSub(s: seq<Entry>, t: seq<Entry>)
    requires Uniform(s) && multiset(t) <= multiset(s)
    ensures Uniform(t)
  {
    forall x | x in t ensures ShowdownShaped(x.hand) {
      assert x in multiset(t);
    }
  }

  /** A showdown result in front of showdown results. */
  lemma UniformCons(x: Entry, t: seq<Entry>)
    requires ShowdownShaped(x.hand) && Uniform(t)
    ensures Uniform([x] + t)
  {
  }

  /** The head and the tail of showdown results. */
  lemma UniformTail(s: seq<Entry>)
    requires s != [] && Uniform(s)
    ensures ShowdownShaped(s[0].hand) && Uniform(s[1..])
  {
    assert s[0] in s;
    assert forall x :: x in s[1..] ==> x in s;
  }

  /** Inserts `e` in front of the first entry that does not rank ahead of it. */
  function Insert(e: Entry, s: seq<Entry>): (r: seq<Entry>)
    requires ShowdownShaped(e.hand) && Uniform(s)
    ensures multiset(r) == multiset(s) + multiset{e}
    ensures Uniform(r)
    ensures s != [] ==> r[0] == e || r[0] == s[0]
    ensures r != []
  {
    if s == [] then [e]
    else
      UniformTail(s);
      if Compare(e.hand, s[0].hand) <= 0 then
        UniformCons(e, s);
        [e] + s
      else
        var rest := Insert(e, s[1..]);
        UniformCons(s[0], rest);
        assert multiset([s[0]] + rest) == multiset(s) + multiset{e} by {
          assert s == [s[0]] + s[1..];
        }
        [s[0]] + rest
  }

  /** What follows the first entry of a sorted sequence is sorted. */
  lemma SortedTail(s: seq<Entry>)
    requires s != [] && Uniform(s) && Sorted(s)
    ensures Uniform(s[1..]) && Sorted(s[1..])
  {
    UniformTail(s);
    forall i | 0 < i < |s[1..]| ensures Compare(s[1..][i - 1].hand, s[1..][i].hand) <= 0 {
      assert s[1..][i - 1] == s[i] && s[1..][i] == s[i + 1];
    }
  }

  /** An entry that compares no later than the head of a sorted sequence can go in front. */
  lemma SortedCons(x: Entry, t: seq<Entry>)
    requires ShowdownShaped(x.hand) && Uniform(t) && Sorted(t)
    requires t != [] ==> Compare(x.hand, t[0].hand) <= 0
    ensures Uniform([x] + t) && Sorted([x] + t)
  {
    UniformCons(x, t);
    var r := [x] + t;
    forall i | 0 < i < |r| ensures Compare(r[i - 1].hand, r[i].hand) <= 0 {
      if i > 1 {
        assert r[i - 1] == t[i - 2] && r[i] == t[i - 1];
      }
    }
  }

  /** Inserting into a sorted sequence keeps it sorted. */
  lemma {:induction false} InsertSorted(e: Entry, s: seq<Entry>)
    requires ShowdownShaped(e.hand) && Uniform(s) && Sorted(s)
    ensures Sorted(Insert(e, s))
  {
    if s != [] {
      UniformTail(s);
      if Compare(e.hand, s[0].hand) > 0 {
        SortedTail(s);
        InsertSorted(e, s[1..]);
        var rest := Insert(e, s[1..]);
        assert Compare(s[0].hand, rest[0].hand) <= 0 by {
          CompareAntisymmetric(e.hand, s[0].hand);
          if |s| > 1 {
            assert s[0] in s && s[1] in s;
          }
        }
        SortedCons(s[0], rest);
      } else {
        SortedCons(e, s);
      }
    } else {
      SortedCons(e, s);
    }
  }

  /** `finalResults.sort((a, b) => compareHands(a.hand, b.hand))`, as an insertion sort. */
  function SortByHand(s: seq<Entry>): (r: seq<Entry>)
    requires Uniform(s)
    ensures multiset(r) == multiset(s)
    ensures |r| == |s|
    ensures Uniform(r) && Sorted(r)
  {
    if s == [] then []
    else
      UniformTail(s);
      var rest := SortByHand(s[1..]);
      InsertSorted(s[0], rest);
      var r := Insert(s[0], rest);
      assert multiset(r) == multiset(s) by {
        assert s == [s[0]] + s[1..];
      }
      assert |r| == |multiset(r)| == |multiset(s)| == |s|;
      r
  }
}
