/** What the straight detection of `evaluateHand` (src/components/PokerGame.tsx) finds,
    stated without windows: the wheel wins whenever Ace, 5, 4, 3 and 2 are present, and
    otherwise the reported straight is the highest run of five consecutive values. */
module Straights {
  import opened HandEval

  /** `h, h - 1, h - 2, h - 3` and `h - 4` all occur in `vals`. */
  predicate RunAt(vals: seq<int>, h: int) {
    h in vals && h - 1 in vals && h - 2 in vals && h - 3 in vals && h - 4 in vals
  }

  /** The five values of the run headed by `h`, highest first. */
  function Run(h: int): seq<int> {
    [h, h - 1, h - 2, h - 3, h - 4]
  }

  /** The source's notion of a straight: the wheel, or a run of five. */
  predicate HasStraight(vals: seq<int>) {
    HasWheel(vals) || exists h :: h in vals && RunAt(vals, h)
  }

  /** In a strictly descending sequence the value one below `u[k]`, if present, sits right
      after it. */
  lemma NextIsPredecessor(u: seq<int>, k: nat)
    requires StrictlyDescending(u) && k < |u| && u[k] - 1 in u
    ensures k + 1 < |u| && u[k + 1] == u[k] - 1
  {
    var p :| 0 <= p < |u| && u[p] == u[k] - 1;
    assert k < p;
  }

  /** A run headed by `u[k]` occupies the window `u[k..k + 5]`. */
  lemma RunIsWindow(u: seq<int>, k: nat)
    requires StrictlyDescending(u) && k < |u| && RunAt(u, u[k])
    ensures k + 5 <= |u| && u[k..k + 5] == Run(u[k])
  {
    NextIsPredecessor(u, k);
    NextIsPredecessor(u, k + 1);
    NextIsPredecessor(u, k + 2);
    NextIsPredecessor(u, k + 3);
  }

  /** The window test `slice[0] - slice[4] === 4` holds exactly at the head of a run. */
  lemma WindowTest(u: seq<int>, k: nat)
    requires StrictlyDescending(u) && k + 5 <= |u|
    ensures u[k] - u[k + 4] == 4 <==> RunAt(u, u[k])
    ensures u[k] - u[k + 4] == 4 ==> u[k..k + 5] == Run(u[k])
  {
    if u[k] - u[k + 4] == 4 {
      assert u[k] > u[k + 1] > u[k + 2] > u[k + 3] > u[k + 4];
      assert u[k + 1] in u && u[k + 2] in u && u[k + 3] in u && u[k + 4] in u;
    }
    if RunAt(u, u[k]) {
      RunIsWindow(u, k);
    }
  }

  /** The window scan from position `i` finds nothing exactly when no run is headed at or
      after `i`. */
  lemma {:induction false} WindowFromNone(u: seq<int>, i: nat)
    requires StrictlyDescending(u) && i <= |u|
    ensures WindowFrom(u, i).None? <==> forall k :: i <= k < |u| ==> !RunAt(u, u[k])
    decreases |u| - i
  {
    if i + 5 > |u| {
      forall k | i <= k < |u| ensures !RunAt(u, u[k]) {
        if RunAt(u, u[k]) {
          RunIsWindow(u, k);
        }
      }
    } else {
      WindowTest(u, i);
      if u[i] - u[i + 4] != 4 {
        WindowFromNone(u, i + 1);
      }
    }
  }

  /** A window found by the scan from position `i` is the first run headed at or after `i`. */
  lemma {:induction false} WindowFromSome(u: seq<int>, i: nat) returns (k: nat)
    requires StrictlyDescending(u) && i <= |u| && WindowFrom(u, i).Some?
    ensures i <= k < |u| && RunAt(u, u[k]) && WindowFrom(u, i).value == Run(u[k])
    ensures forall k' :: i <= k' < k ==> !RunAt(u, u[k'])
    decreases |u| - i
  {
    WindowTest(u, i);
    if u[i] - u[i + 4] == 4 {
      k := i;
    } else {
      k := WindowFromSome(u, i + 1);
    }
  }

  /** The wheel's values lie at increasing positions of a strictly descending sequence, so
      there are at least five distinct values. */
  lemma WheelHasFive(u: seq<int>)
    requires StrictlyDescending(u) && HasWheel(u)
    ensures |u| >= 5
  {
    var a :| 0 <= a < |u| && u[a] == 14;
    var b :| 0 <= b < |u| && u[b] == 5;
    var c :| 0 <= c < |u| && u[c] == 4;
    var d :| 0 <= d < |u| && u[d] == 3;
    var e :| 0 <= e < |u| && u[e] == 2;
    assert a < b < c < d < e;
  }

  /** A run in `u` is headed at some position of `u`. */
  lemma RunHeadPosition(u: seq<int>, h: int) returns (k: nat)
    requires StrictlyDescending(u) && RunAt(u, h)
    ensures k < |u| && u[k] == h && k + 5 <= |u|
  {
    k :| 0 <= k < |u| && u[k] == h;
    RunIsWindow(u, k);
  }

  /** When the scan finds nothing, there is no run at all. */
  lemma NoWindowNoRun(u: seq<int>, h: int)
    requires StrictlyDescending(u) && WindowFrom(u, 0).None?
    ensures !RunAt(u, h)
  {
    WindowFromNone(u, 0);
    if RunAt(u, h) {
      var k := RunHeadPosition(u, h);
    }
  }

  /** When the scan finds a window, it is the run with the highest head. */
  lemma WindowIsHighestRun(u: seq<int>) returns (h: int)
    requires StrictlyDescending(u) && WindowFrom(u, 0).Some?
    ensures RunAt(u, h) && WindowFrom(u, 0) == Some(Run(h))
    ensures forall h' :: RunAt(u, h') ==> h' <= h
  {
    var k0 := WindowFromSome(u, 0);
    h := u[k0];
    forall h' | RunAt(u, h') ensures h' <= h {
      var j := RunHeadPosition(u, h');
      assert k0 <= j;
    }
  }

  /** The straight of `evaluateHand`: there is one exactly when the values hold the wheel or
      a run of five; with the wheel present it is `[5, 4, 3, 2, 1]`, even when a higher run
      exists; otherwise it is the highest run. */
  lemma StraightOfSpec(vals: seq<int>)
    ensures StraightOf(UniqueValues(vals)).Some? <==> HasStraight(vals)
    ensures HasWheel(vals) ==> StraightOf(UniqueValues(vals)) == Some([5, 4, 3, 2, 1])
    ensures !HasWheel(vals) && HasStraight(vals) ==>
              exists h :: RunAt(vals, h) && StraightOf(UniqueValues(vals)) == Some(Run(h))
                          && forall h' :: RunAt(vals, h') ==> h' <= h
  {
    var u := UniqueValues(vals);
    assert forall h :: RunAt(vals, h) <==> RunAt(u, h);
    assert HasWheel(vals) <==> HasWheel(u);
    if HasWheel(u) {
      WheelHasFive(u);
    } else if WindowFrom(u, 0).None? {
      forall h ensures !RunAt(vals, h) {
        NoWindowNoRun(u, h);
      }
    } else {
      var h := WindowIsHighestRun(u);
      var k := RunHeadPosition(u, h);
    }
  }
}
