/** The greedy warehouse split of one order line, on its own.

    `shelves` is what the availability query returns: the units free at each active
    warehouse, deepest first.  `Takes` is the planner's inner loop as a function; the
    theorems say it draws everything it can and that no other way of drawing as much
    touches fewer warehouses. */
module SplitPlanner {
  import opened Numbers

  /** How many shelves a draw touches: each is one more shipment. */
  function Touched(draw: seq<int>): nat {
    if draw == [] then 0 else (if draw[0] != 0 then 1 else 0) + Touched(draw[1..])
  }

  /** What the planner takes from each shelf, in listing order. */
  function Takes(shelves: seq<int>, wanted: int): seq<int> {
    if shelves == [] then []
    else
      var take := if wanted <= 0 || shelves[0] <= 0 then 0 else Min(wanted, shelves[0]);
      [take] + Takes(shelves[1..], wanted - take)
  }

  /** Shelves are drained in listing order: one that keeps something is the last one drawn
      on. */
  lemma {:induction false} DrainsInOrder(shelves: seq<int>, wanted: int, i: nat, j: nat)
    requires i < j < |shelves| && forall k :: 0 <= k < |shelves| ==> shelves[k] >= 0
    ensures |Takes(shelves, wanted)| == |shelves|
    ensures Takes(shelves, wanted)[i] < shelves[i] ==> Takes(shelves, wanted)[j] == 0
  {
    var take := Takes(shelves, wanted)[0];
    TakesLength(shelves[1..], wanted - take);
    if i > 0 {
      DrainsInOrder(shelves[1..], wanted - take, i - 1, j - 1);
    } else if take < shelves[0] {
      NothingMore(shelves[1..], wanted - take, j - 1);
    }
  }

  lemma {:induction false} TakesLength(shelves: seq<int>, wanted: int)
    ensures |Takes(shelves, wanted)| == |shelves|
  {
    if shelves != [] { TakesLength(shelves[1..], wanted - Takes(shelves, wanted)[0]); }
  }

  lemma {:induction false} NothingMore(shelves: seq<int>, wanted: int, j: nat)
    requires wanted <= 0 && j < |shelves|
    ensures |Takes(shelves, wanted)| == |shelves| && Takes(shelves, wanted)[j] == 0
  {
    TakesLength(shelves[1..], wanted);
    if j > 0 { NothingMore(shelves[1..], wanted, j - 1); }
  }

  ghost predicate DeepestFirst(shelves: seq<int>) {
    forall i, j :: 0 <= i < j < |shelves| ==> shelves[i] >= shelves[j]
  }

  ghost predicate NonNegative(s: seq<int>) {
    forall i :: 0 <= i < |s| ==> s[i] >= 0
  }

  /** A way of drawing `units` from the shelves without overdrawing any of them. */
  ghost predicate IsDraw(shelves: seq<int>, draw: seq<int>, units: int) {
    && |draw| == |shelves|
    && (forall i :: 0 <= i < |draw| ==> 0 <= draw[i] <= shelves[i])
    && Sum(draw) == units
  }

  lemma {:induction false} SumNonNegative(s: seq<int>)
    requires NonNegative(s)
    ensures Sum(s) >= 0
  {
    if s != [] { SumNonNegative(s[1..]); }
  }

  lemma {:induction false} TouchedAtMostLength(draw: seq<int>)
    ensures Touched(draw) <= |draw|
  {
    if draw != [] { TouchedAtMostLength(draw[1..]); }
  }

  /** The split is a draw of exactly min(wanted, total available) units, so what is
      left to backorder is exactly the shortfall. */
  lemma {:induction false} TakesIsDraw(shelves: seq<int>, wanted: int)
    requires NonNegative(shelves) && wanted >= 0
    ensures IsDraw(shelves, Takes(shelves, wanted), Min(wanted, Sum(shelves)))
  {
    if shelves != [] {
      var take := Takes(shelves, wanted)[0];
      TakesIsDraw(shelves[1..], wanted - take);
      SumNonNegative(shelves[1..]);
      var rest := Takes(shelves[1..], wanted - take);
      assert Takes(shelves, wanted) == [take] + rest;
      assert ([take] + rest)[1..] == rest;
    }
  }

  /** The first k of a deepest-first listing outweigh the same listing one further on. */
  lemma {:induction false} PrefixDominates(shelves: seq<int>, k: nat)
    requires DeepestFirst(shelves) && NonNegative(shelves)
    requires k < |shelves|
    ensures Sum(shelves[1..][..k]) <= Sum(shelves[..k])
  {
    if k > 0 {
      var tail := shelves[1..];
      PrefixDominates(tail, k - 1);
      assert tail[..k][1..] == tail[1..][..k - 1];
      assert shelves[..k][1..] == tail[..k - 1];
    }
  }

  /** No draw that touches k shelves can exceed the k deepest ones. */
  lemma {:induction false} DrawWithinDeepest(shelves: seq<int>, draw: seq<int>)
    requires DeepestFirst(shelves) && NonNegative(shelves)
    requires IsDraw(shelves, draw, Sum(draw))
    ensures Touched(draw) <= |shelves|
    ensures Sum(draw) <= Sum(shelves[..Touched(draw)])
  {
    TouchedAtMostLength(draw);
    if shelves != [] {
      DrawWithinDeepest(shelves[1..], draw[1..]);
      var k := Touched(draw[1..]);
      if draw[0] == 0 {
        PrefixDominates(shelves, k);
      } else {
        assert shelves[..k + 1][1..] == shelves[1..][..k];
      }
    }
  }

  lemma {:induction false} NothingTaken(shelves: seq<int>, wanted: int)
    requires forall i :: 0 <= i < |shelves| ==> shelves[i] == 0
    ensures Touched(Takes(shelves, wanted)) == 0
  {
    if shelves != [] {
      NothingTaken(shelves[1..], wanted);
      assert Takes(shelves, wanted)[1..] == Takes(shelves[1..], wanted);
    }
  }

  lemma {:induction false} NothingWanted(shelves: seq<int>)
    ensures Touched(Takes(shelves, 0)) == 0
  {
    if shelves != [] {
      NothingWanted(shelves[1..]);
      assert Takes(shelves, 0)[1..] == Takes(shelves[1..], 0);
    }
  }

  /** The planner only opens its last shelf because the earlier ones were too little. */
  lemma {:induction false} LastShelfNeeded(shelves: seq<int>, wanted: int)
    requires DeepestFirst(shelves) && NonNegative(shelves) && wanted >= 0
    ensures var k := Touched(Takes(shelves, wanted));
            k <= |shelves| && (k > 0 ==> Sum(shelves[..k - 1]) < Min(wanted, Sum(shelves)))
  {
    if shelves != [] {
      var take := Takes(shelves, wanted)[0];
      var rest := Takes(shelves[1..], wanted - take);
      assert Takes(shelves, wanted)[1..] == rest;
      SumNonNegative(shelves[1..]);
      if take == 0 {
        if wanted == 0 { NothingWanted(shelves); } else { NothingTaken(shelves, wanted); }
      } else if take == wanted {
        NothingWanted(shelves[1..]);
      } else {
        LastShelfNeeded(shelves[1..], wanted - take);
        var k := Touched(rest);
        if k > 0 { assert shelves[..k][1..] == shelves[1..][..k - 1]; }
      }
    }
  }

  /** Greedy optimality: any other draw of as many units touches at least as many
      warehouses. */
  lemma GreedyTouchesFewest(shelves: seq<int>, wanted: int, other: seq<int>)
    requires DeepestFirst(shelves) && NonNegative(shelves) && wanted >= 0
    requires IsDraw(shelves, other, Min(wanted, Sum(shelves)))
    ensures Touched(Takes(shelves, wanted)) <= Touched(other)
  {
    LastShelfNeeded(shelves, wanted);
    DrawWithinDeepest(shelves, other);
    var k, m := Touched(Takes(shelves, wanted)), Touched(other);
    if m < k {
      PrefixMonotone(shelves, m, k - 1);
    }
  }

  lemma {:induction false} PrefixMonotone(shelves: seq<int>, m: nat, n: nat)
    requires NonNegative(shelves) && m <= n <= |shelves|
    ensures Sum(shelves[..m]) <= Sum(shelves[..n])
  {
    if m > 0 {
      PrefixMonotone(shelves[1..], m - 1, n - 1);
      assert shelves[..m][1..] == shelves[1..][..m - 1];
      assert shelves[..n][1..] == shelves[1..][..n - 1];
    } else {
      SumNonNegative(shelves[..n]);
    }
  }
}
