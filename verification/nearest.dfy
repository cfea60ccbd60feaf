/** The nearest-city search: a left-to-right scan over the cities' distances
    from the query point, keeping a running minimum distance (`minPath`) and
    the position it belongs to. The scan is given twice: as the source writes
    it, where a running minimum of 0 counts as "nothing picked yet", and as
    evidently intended, where only the absence of a minimum does. */
module Nearest {
  import opened Cities

  /** Squared planar distance from the query point. The source takes the
      square root of this; the root orders cities the same way and is zero
      exactly when this is, so every comparison of the scan comes out the same. */
  function SquaredDistance(latPoint: int, longPoint: int, c: City): (d: int)
    ensures d >= 0
    ensures d == 0 <==> c.latitude == latPoint && c.longitude == longPoint
  {
    Square(latPoint - c.latitude) + Square(longPoint - c.longitude)
  }

  /** A square is never negative and is zero only for zero. */
  function Square(x: int): (r: int)
    ensures r >= 0
    ensures r == 0 <==> x == 0
  {
    x * x
  }

  /** The distance of each city from the query point, in list order. */
  function Distances(cities: seq<City>, latPoint: int, longPoint: int): (ds: seq<int>)
    ensures |ds| == |cities|
    ensures forall i :: 0 <= i < |cities| ==> ds[i] == SquaredDistance(latPoint, longPoint, cities[i])
  {
    seq(|cities|, i requires 0 <= i < |cities| => SquaredDistance(latPoint, longPoint, cities[i]))
  }

  /** The running state: nothing picked yet, or the position picked and its
      distance. */
  datatype Pick = Unset | Picked(index: nat, minPath: int)

  /** The intended test: take the next city when nothing is picked yet or
      when it is strictly nearer. */
  predicate Takes(p: Pick, distance: int) {
    p.Unset? || distance < p.minPath
  }

  /** The source's test for taking the next city, `!minPath || distance <
      minPath`: `!minPath` holds before the first city and also whenever the
      running minimum is 0. It agrees with the intended test except on a
      running minimum of 0, where it takes every next city. */
  function TakesAsWritten(p: Pick, distance: int): (t: bool)
    ensures Takes(p, distance) ==> t
    ensures p.Picked? && p.minPath == 0 ==> t
    ensures t && !Takes(p, distance) ==> p.Picked? && p.minPath == 0
  {
    p.Unset? || p.minPath == 0 || distance < p.minPath
  }

  /** The scan as written, over the distances in list order. */
  function ScanAsWritten(ds: seq<int>): (p: Pick)
    ensures p.Unset? <==> |ds| == 0
    ensures p.Picked? ==> p.index < |ds| && p.minPath == ds[p.index]
    decreases |ds|
  {
    if |ds| == 0 then Unset
    else
      var last := |ds| - 1;
      var p := ScanAsWritten(ds[..last]);
      if TakesAsWritten(p, ds[last]) then Picked(last, ds[last]) else p
  }

  /** `k` is the first position, from position `lo` on, of a minimum among
      the distances from `lo` on. */
  predicate IsFirstNearestFrom(ds: seq<int>, lo: int, k: int) {
    && 0 <= lo <= k < |ds|
    && (forall i :: lo <= i < |ds| ==> ds[k] <= ds[i])
    && (forall i :: lo <= i < k ==> ds[k] < ds[i])
  }

  /** `k` is the first position of a minimum distance. */
  predicate IsFirstNearest(ds: seq<int>, k: int) {
    IsFirstNearestFrom(ds, 0, k)
  }

  /** At most one position is the first nearest one from a given position on. */
  lemma FirstNearestUnique(ds: seq<int>, lo: int, k: int, k': int)
    requires IsFirstNearestFrom(ds, lo, k) && IsFirstNearestFrom(ds, lo, k')
    ensures k == k'
  {
    assert ds[k] <= ds[k'] && ds[k'] <= ds[k];
  }

  /** The intended scan: it picks the first position at minimum distance. */
  function NearestScan(ds: seq<int>): (p: Pick)
    ensures p.Unset? <==> |ds| == 0
    ensures p.Picked? ==> IsFirstNearest(ds, p.index) && p.minPath == ds[p.index]
    decreases |ds|
  {
    if |ds| == 0 then Unset
    else
      var last := |ds| - 1;
      var p := NearestScan(ds[..last]);
      assert forall j :: 0 <= j < last ==> ds[..last][j] == ds[j];
      if Takes(p, ds[last]) then Picked(last, ds[last]) else p
  }

  /** A city exactly at the query point is the intended answer whenever it is
      the first such city. */
  lemma NearestScanFindsExactMatch(cities: seq<City>, latPoint: int, longPoint: int, k: int)
    requires 0 <= k < |cities|
    requires cities[k].latitude == latPoint && cities[k].longitude == longPoint
    requires forall j :: 0 <= j < k ==> cities[j].latitude != latPoint || cities[j].longitude != longPoint
    ensures NearestScan(Distances(cities, latPoint, longPoint)) == Picked(k, 0)
  {
    var ds := Distances(cities, latPoint, longPoint);
    var p := NearestScan(ds);
    assert ds[k] == 0 && ds[p.index] >= 0;
    assert IsFirstNearest(ds, k);
    FirstNearestUnique(ds, 0, p.index, k);
  }

  /** Without a zero distance before the last position the two scans agree,
      so the source's answer is then the first position at minimum distance. */
  lemma {:induction false} ScanAsWrittenAgrees(ds: seq<int>)
    requires forall j :: 0 <= j < |ds| - 1 ==> ds[j] != 0
    ensures ScanAsWritten(ds) == NearestScan(ds)
    decreases |ds|
  {
    if |ds| > 0 {
      var front := ds[..|ds| - 1];
      ScanAsWrittenAgrees(front);
      var p := ScanAsWritten(front);
      if p.Picked? {
        assert front[p.index] == ds[p.index];
      }
    }
  }

  /** A last distance of zero, after distances that are never negative, is
      always taken by the source's scan. */
  lemma ExactMatchPicked(ds: seq<int>)
    requires |ds| > 0 && ds[|ds| - 1] == 0
    requires forall i :: 0 <= i < |ds| ==> ds[i] >= 0
    ensures ScanAsWritten(ds) == Picked(|ds| - 1, 0)
  {
    var p := ScanAsWritten(ds[..|ds| - 1]);
    if p.Picked? {
      assert ds[..|ds| - 1][p.index] == ds[p.index];
    }
  }

  /** What the source computes after an exact match at position `j` that is
      not the last position, with no other zero distance before the last
      position: the scan starts over at `j + 1`, so it answers the first
      nearest position among those after `j`, and never the match itself. */
  lemma {:induction false} ScanAsWrittenRestarts(ds: seq<int>, j: nat)
    requires j < |ds| - 1
    requires ds[j] == 0
    requires forall i :: 0 <= i < |ds| ==> ds[i] >= 0
    requires forall i :: j < i < |ds| - 1 ==> ds[i] != 0
    ensures IsFirstNearestFrom(ds, j + 1, ScanAsWritten(ds).index)
    decreases |ds|
  {
    var front := ds[..|ds| - 1];
    if |ds| - 1 == j + 1 {
      ExactMatchPicked(front);
    } else {
      ScanAsWrittenRestarts(front, j);
    }
  }

  /** A concrete list on which the source misses an exact match: the query
      point is the first city's own position, yet the answer is the second
      city; the intended scan answers the first. */
  lemma ExactMatchOverwritten()
    ensures var ds := Distances([City("Memphis", "TN", 3500, -9000, None), City("Nashville", "TN", 3617, -8678, None)], 3500, -9000);
      && ScanAsWritten(ds).index == 1
      && NearestScan(ds) == Picked(0, 0)
  {
    var cities := [City("Memphis", "TN", 3500, -9000, None), City("Nashville", "TN", 3617, -8678, None)];
    var ds := Distances(cities, 3500, -9000);
    assert ds[0] == 0;
    ScanAsWrittenRestarts(ds, 0);
    NearestScanFindsExactMatch(cities, 3500, -9000, 0);
  }
}
