/** The k-dist computation used to tune DBSCAN on one record of a 128-channel
    time projection chamber: every sample above threshold is a hit, and each
    hit gets the Manhattan distance to its k-th nearest hit in the same wire
    plane (itself included). */
module KDist {
  import opened Common
  import opened Sorting

  /** A sample counts as a hit when it exceeds this many ADC counts. */
  const ADC_THRESHOLD := 200
  /** Channels below this are the collection plane. */
  const COLLECTION_END := 48
  /** Channels from `COLLECTION_END` below this are the first induction plane. */
  const INDUCTION1_END := 88

  /** A position in the channel-by-tick array. */
  datatype Hit = Hit(channel: int, tick: int)

  /** `manhattan_dist` */
  function ManhattanDist(x: Hit, y: Hit): (d: int)
    ensures d >= 0
  {
    Abs(x.channel - y.channel) + Abs(x.tick - y.tick)
  }

  /** Distinct positions are at a positive distance. */
  lemma ManhattanZeroIffSame(x: Hit, y: Hit)
    ensures ManhattanDist(x, y) == 0 <==> x == y
  {
  }

  lemma ManhattanSymmetric(x: Hit, y: Hit)
    ensures ManhattanDist(x, y) == ManhattanDist(y, x)
  {
  }

  lemma ManhattanTriangle(x: Hit, y: Hit, z: Hit)
    ensures ManhattanDist(x, z) <= ManhattanDist(x, y) + ManhattanDist(y, z)
  {
  }

  /** `identify_plane`: 0 for the collection plane, 1 and 2 for the two
      induction planes. */
  function IdentifyPlane(x: Hit): (p: nat)
    ensures p <= 2
  {
    if x.channel < COLLECTION_END then 0
    else if x.channel < INDUCTION1_END then 1
    else 2
  }

  /** The collection plane is channels below 48, the first induction plane
      48 to 87 and the second induction plane everything from 88 on. */
  lemma PlaneBands(x: Hit)
    ensures IdentifyPlane(x) == 0 <==> x.channel < COLLECTION_END
    ensures IdentifyPlane(x) == 1 <==> COLLECTION_END <= x.channel < INDUCTION1_END
    ensures IdentifyPlane(x) == 2 <==> INDUCTION1_END <= x.channel
  {
  }

  /** Planes are contiguous bands of channels, in channel order. */
  lemma PlaneMonotone(x: Hit, y: Hit)
    requires x.channel <= y.channel
    ensures IdentifyPlane(x) <= IdentifyPlane(y)
  {
  }

  // ---------------------------------------------------------------------
  // Hits

  predicate IsHit(adcs: seq<seq<int>>, h: Hit)
  {
    0 <= h.channel < |adcs| && 0 <= h.tick < |adcs[h.channel]| && adcs[h.channel][h.tick] > ADC_THRESHOLD
  }

  /** Row-major order, the order in which `np.where` lists positions. */
  predicate Before(a: Hit, b: Hit)
  {
    a.channel < b.channel || (a.channel == b.channel && a.tick < b.tick)
  }

  predicate InScanOrder(hs: seq<Hit>)
  {
    forall i, j | 0 <= i < j < |hs| :: Before(hs[i], hs[j])
  }

  /** The hits among the first `m` ticks of channel `c`. */
  function RowHits(adcs: seq<seq<int>>, c: nat, m: nat): seq<Hit>
    requires c < |adcs| && m <= |adcs[c]|
  {
    if m == 0 then []
    else RowHits(adcs, c, m - 1) + if adcs[c][m - 1] > ADC_THRESHOLD then [Hit(c, m - 1)] else []
  }

  /** The hits of the first `n` channels. */
  function HitsUpTo(adcs: seq<seq<int>>, n: nat): seq<Hit>
    requires n <= |adcs|
  {
    if n == 0 then [] else HitsUpTo(adcs, n - 1) + RowHits(adcs, n - 1, |adcs[n - 1]|)
  }

  /** `np.where(adcs > ADC_THRESHOLD)`, zipped into (channel, tick) pairs. */
  function Hits(adcs: seq<seq<int>>): seq<Hit>
  {
    HitsUpTo(adcs, |adcs|)
  }

  lemma {:induction false} RowHitsExactly(adcs: seq<seq<int>>, c: nat, m: nat)
    requires c < |adcs| && m <= |adcs[c]|
    ensures forall h :: h in RowHits(adcs, c, m) <==> h.channel == c && 0 <= h.tick < m && IsHit(adcs, h)
    ensures InScanOrder(RowHits(adcs, c, m))
  {
    if m > 0 {
      RowHitsExactly(adcs, c, m - 1);
      var front := RowHits(adcs, c, m - 1);
      if adcs[c][m - 1] > ADC_THRESHOLD {
        OrderedConcat(front, [Hit(c, m - 1)]);
      } else {
        assert RowHits(adcs, c, m) == front;
      }
    }
  }

  /** Two lists in scan order, the first entirely before the second,
      concatenate to a list in scan order. */
  lemma OrderedConcat(a: seq<Hit>, b: seq<Hit>)
    requires InScanOrder(a) && InScanOrder(b)
    requires forall x, y | x in a && y in b :: Before(x, y)
    ensures InScanOrder(a + b)
  {
    var ab := a + b;
    forall i, j | 0 <= i < j < |ab| ensures Before(ab[i], ab[j]) {
      if j < |a| {
        assert ab[i] == a[i] && ab[j] == a[j];
      } else if i < |a| {
        assert ab[i] in a && ab[j] in b;
      } else {
        assert ab[i] == b[i - |a|] && ab[j] == b[j - |a|];
      }
    }
  }

  lemma {:induction false} HitsUpToExactly(adcs: seq<seq<int>>, n: nat)
    requires n <= |adcs|
    ensures forall h :: h in HitsUpTo(adcs, n) <==> h.channel < n && IsHit(adcs, h)
    ensures InScanOrder(HitsUpTo(adcs, n))
  {
    if n > 0 {
      HitsUpToExactly(adcs, n - 1);
      RowHitsExactly(adcs, n - 1, |adcs[n - 1]|);
      OrderedConcat(HitsUpTo(adcs, n - 1), RowHits(adcs, n - 1, |adcs[n - 1]|));
    }
  }

  /** The hits are exactly the positions whose sample is strictly above
      `ADC_THRESHOLD`, listed once each in row-major order. */
  lemma HitsAreAboveThreshold(adcs: seq<seq<int>>)
    ensures forall h :: h in Hits(adcs) <==> IsHit(adcs, h)
    ensures InScanOrder(Hits(adcs))
  {
    HitsUpToExactly(adcs, |adcs|);
  }

  // ---------------------------------------------------------------------
  // Distances

  /** The distances from `x` to the hits of `ys` in its own plane, in the
      order of `ys`: the list built by the inner loop. */
  function Distances(ys: seq<Hit>, x: Hit): seq<int>
  {
    if |ys| == 0 then []
    else
      var y := ys[|ys| - 1];
      Distances(ys[..|ys| - 1], x) + if IdentifyPlane(x) == IdentifyPlane(y) then [ManhattanDist(x, y)] else []
  }

  lemma {:induction false} DistancesSplit(a: seq<Hit>, b: seq<Hit>, x: Hit)
    ensures Distances(a + b, x) == Distances(a, x) + Distances(b, x)
  {
    if |b| == 0 {
      assert a + b == a;
    } else {
      DistancesSplit(a, b[..|b| - 1], x);
      assert (a + b)[..|a + b| - 1] == a + b[..|b| - 1];
    }
  }

  /** A hit in another plane contributes nothing to `x`'s list. */
  lemma OtherPlaneIgnored(a: seq<Hit>, y: Hit, b: seq<Hit>, x: Hit)
    requires IdentifyPlane(y) != IdentifyPlane(x)
    ensures Distances(a + [y] + b, x) == Distances(a + b, x)
  {
    DistancesSplit(a + [y], b, x);
    DistancesSplit(a, [y], x);
    DistancesSplit(a, b, x);
    assert [y][..0] == [];
  }

  /** Each entry of `x`'s list is the distance to some same-plane hit, and
      every same-plane hit gives an entry. */
  lemma {:induction false} DistancesMembers(ys: seq<Hit>, x: Hit)
    ensures forall d :: d in Distances(ys, x) <==>
      exists y :: y in ys && IdentifyPlane(y) == IdentifyPlane(x) && ManhattanDist(x, y) == d
  {
    if |ys| > 0 {
      var init, y := ys[..|ys| - 1], ys[|ys| - 1];
      DistancesMembers(init, x);
      assert ys == init + [y];
      forall d ensures d in Distances(ys, x) <==>
        exists z :: z in ys && IdentifyPlane(z) == IdentifyPlane(x) && ManhattanDist(x, z) == d
      {
        if z :| z in ys && IdentifyPlane(z) == IdentifyPlane(x) && ManhattanDist(x, z) == d {
          if z != y {
            assert z in init;
          }
        }
      }
    }
  }

  /** The indices of the hits of `ys` in `x`'s plane. */
  function SamePlaneIndices(ys: seq<Hit>, x: Hit): set<int>
  {
    set i | 0 <= i < |ys| && IdentifyPlane(ys[i]) == IdentifyPlane(x)
  }

  /** `x`'s list has exactly one entry per hit of `ys` in its plane. */
  lemma {:induction false} DistancesLength(ys: seq<Hit>, x: Hit)
    ensures |Distances(ys, x)| == |SamePlaneIndices(ys, x)|
  {
    if |ys| == 0 {
      assert SamePlaneIndices(ys, x) == {};
    } else {
      var n := |ys| - 1;
      var init := ys[..n];
      DistancesLength(init, x);
      if IdentifyPlane(ys[n]) == IdentifyPlane(x) {
        assert SamePlaneIndices(ys, x) == SamePlaneIndices(init, x) + {n};
      } else {
        assert SamePlaneIndices(ys, x) == SamePlaneIndices(init, x);
      }
    }
  }

  // ---------------------------------------------------------------------
  // k-distance of one hit

  /** `dist.sort(); dist[k]`: Python indexing, so a negative `k` counts from
      the largest distance, and an index outside the list raises. */
  function KDistanceOf(hits: seq<Hit>, x: Hit, k: int): Result<int>
  {
    Index(SortAscending(Distances(hits, x)), k)
  }

  /** The k-distance exists exactly when `k` indexes the same-plane list;
      for `k >= 0` that is when fewer than `k + 1` same-plane hits exist is
      ruled out. The only failure is `IndexError`. */
  lemma KDistanceDefined(hits: seq<Hit>, x: Hit, k: int)
    ensures KDistanceOf(hits, x, k).Ok? <==> -|SamePlaneIndices(hits, x)| <= k < |SamePlaneIndices(hits, x)|
    ensures KDistanceOf(hits, x, k).Err? ==> KDistanceOf(hits, x, k).error == IndexError
  {
    DistancesLength(hits, x);
  }

  lemma {:induction false} DistancesNonNegative(ys: seq<Hit>, x: Hit)
    ensures forall i | 0 <= i < |Distances(ys, x)| :: Distances(ys, x)[i] >= 0
  {
    if |ys| > 0 {
      DistancesNonNegative(ys[..|ys| - 1], x);
    }
  }

  lemma {:induction false} SelfAtDistanceZero(ys: seq<Hit>, x: Hit)
    requires x in ys
    ensures 0 in Distances(ys, x)
  {
    var init := ys[..|ys| - 1];
    if ys[|ys| - 1] != x {
      assert ys == init + [ys[|ys| - 1]];
      SelfAtDistanceZero(init, x);
    }
  }

  /** A hit counts itself, so its 0-dist is 0. */
  lemma ZeroDistIsZero(hits: seq<Hit>, x: Hit)
    requires x in hits
    ensures KDistanceOf(hits, x, 0) == Ok(0)
  {
    var ds := Distances(hits, x);
    var t := SortAscending(ds);
    SelfAtDistanceZero(hits, x);
    DistancesNonNegative(hits, x);
    SortAscendingSorts(ds);
    assert 0 in multiset(t);
    var i :| 0 <= i < |t| && t[i] == 0;
    assert t[0] in multiset(ds);
    assert t[0] >= 0;
  }

  /** For a fixed hit the k-distance does not decrease as `k` grows. */
  lemma KDistanceMonotone(hits: seq<Hit>, x: Hit, k1: int, k2: int)
    requires 0 <= k1 <= k2
    requires KDistanceOf(hits, x, k2).Ok?
    ensures KDistanceOf(hits, x, k1).Ok?
    ensures KDistanceOf(hits, x, k1).value <= KDistanceOf(hits, x, k2).value
  {
    SortAscendingSorts(Distances(hits, x));
  }

  /** The k-distance is the (k+1)-th smallest same-plane distance: at most
      `k` are smaller and more than `k` are at most it. */
  lemma KDistanceIsKthSmallest(hits: seq<Hit>, x: Hit, k: int)
    requires k >= 0 && KDistanceOf(hits, x, k).Ok?
    ensures CountLess(Distances(hits, x), KDistanceOf(hits, x, k).value) <= k
    ensures k < CountAtMost(Distances(hits, x), KDistanceOf(hits, x, k).value)
  {
    KthSmallest(Distances(hits, x), k);
  }

  // ---------------------------------------------------------------------
  // The whole record

  /** The outcome of `dist[k]` for each of the first `n` hits, in hit order. */
  function PerHitUpTo(hits: seq<Hit>, k: int, n: nat): (rs: seq<Result<int>>)
    requires n <= |hits|
    ensures |rs| == n
  {
    if n == 0 then [] else PerHitUpTo(hits, k, n - 1) + [KDistanceOf(hits, hits[n - 1], k)]
  }

  function PerHit(hits: seq<Hit>, k: int): (rs: seq<Result<int>>)
    ensures |rs| == |hits|
  {
    PerHitUpTo(hits, k, |hits|)
  }

  lemma {:induction false} PerHitUpToAt(hits: seq<Hit>, k: int, n: nat, i: nat)
    requires i < n <= |hits|
    ensures PerHitUpTo(hits, k, n)[i] == KDistanceOf(hits, hits[i], k)
  {
    if i < n - 1 {
      PerHitUpToAt(hits, k, n - 1, i);
    }
  }

  lemma PerHitAt(hits: seq<Hit>, k: int, i: nat)
    requires i < |hits|
    ensures PerHit(hits, k)[i] == KDistanceOf(hits, hits[i], k)
  {
    PerHitUpToAt(hits, k, |hits|, i);
  }

  /** The outer loop's list after the first `n` outcomes: the first failing
      index raises for the whole record. */
  function CollectUpTo(rs: seq<Result<int>>, n: nat): Result<seq<int>>
    requires n <= |rs|
  {
    if n == 0 then Ok([])
    else
      match CollectUpTo(rs, n - 1)
      case Err(e) => Err(e)
      case Ok(ds) =>
        match rs[n - 1]
        case Err(e) => Err(e)
        case Ok(d) => Ok(ds + [d])
  }

  /** `k_dist`'s returned list, or the exception it raises. */
  function KDistResult(adcs: seq<seq<int>>, k: int): Result<seq<int>>
  {
    var rs := PerHit(Hits(adcs), k);
    match CollectUpTo(rs, |rs|)
    case Err(e) => Err(e)
    case Ok(ds) => Ok(SortDescending(ds))
  }

  /** The collection succeeds exactly when every outcome does, and then
      holds the outcomes' values in order; otherwise it carries the error of
      the first failing outcome. */
  lemma {:induction false} CollectPerHit(rs: seq<Result<int>>, n: nat)
    requires n <= |rs|
    ensures CollectUpTo(rs, n).Ok? <==> forall i | 0 <= i < n :: rs[i].Ok?
    ensures CollectUpTo(rs, n).Ok? ==>
      |CollectUpTo(rs, n).value| == n && forall i | 0 <= i < n :: rs[i] == Ok(CollectUpTo(rs, n).value[i])
    ensures CollectUpTo(rs, n).Err? ==> exists i | 0 <= i < n :: rs[i] == Err(CollectUpTo(rs, n).error)
  {
    if n > 0 {
      CollectPerHit(rs, n - 1);
    }
  }

  /** One pass of the outer loop: build `x`'s list, sort it in place and
      index it at `k`. */
  method KDistanceOfHit(hits: seq<Hit>, i: nat, k: int) returns (d: Result<int>)
    requires i < |hits|
    ensures d == PerHit(hits, k)[i]
  {
    var x := hits[i];
    var dist := SamePlaneDistances(hits, x);
    dist := SortAscending(dist);
    d := Index(dist, k);
    PerHitAt(hits, k, i);
  }

  /** The inner loop: the distance from `x` to every hit in its plane,
      itself included, in hit order. */
  method SamePlaneDistances(hits: seq<Hit>, x: Hit) returns (dist: seq<int>)
    ensures dist == Distances(hits, x)
  {
    dist := [];
    var xPlane := IdentifyPlane(x);
    for j := 0 to |hits|
      invariant dist == Distances(hits[..j], x)
    {
      var y := hits[j];
      assert hits[..j + 1][..j] == hits[..j];
      var yPlane := IdentifyPlane(y);
      if xPlane == yPlane {
        dist := dist + [ManhattanDist(x, y)];
      }
    }
    assert hits[..|hits|] == hits;
  }

  lemma {:induction false} NoRecoveryAfterError(rs: seq<Result<int>>, m: nat, n: nat)
    requires m <= n <= |rs|
    requires CollectUpTo(rs, m).Err?
    ensures CollectUpTo(rs, n) == CollectUpTo(rs, m)
    decreases n - m
  {
    if m < n {
      NoRecoveryAfterError(rs, m, n - 1);
    }
  }

  /** The values of the successful outcomes, in order (0 stands in for a
      failed one). */
  function OkValues(rs: seq<Result<int>>): seq<int>
  {
    seq(|rs|, i requires 0 <= i < |rs| => if rs[i].Ok? then rs[i].value else 0)
  }

  /** When every outcome succeeds, the collection is their values. */
  lemma CollectAllOk(rs: seq<Result<int>>)
    requires forall i | 0 <= i < |rs| :: rs[i].Ok?
    ensures CollectUpTo(rs, |rs|) == Ok(OkValues(rs))
  {
    CollectPerHit(rs, |rs|);
    assert CollectUpTo(rs, |rs|).value == OkValues(rs);
  }

  /** Each hit's outcome fails only with `IndexError`. */
  lemma PerHitErrors(hits: seq<Hit>, k: int)
    ensures forall i | 0 <= i < |hits| :: PerHit(hits, k)[i].Err? ==> PerHit(hits, k)[i].error == IndexError
  {
    forall i | 0 <= i < |hits| ensures PerHit(hits, k)[i].Err? ==> PerHit(hits, k)[i].error == IndexError {
      KDistanceDefined(hits, hits[i], k);
      PerHitAt(hits, k, i);
    }
  }

  /** `k_dist` fails, with `IndexError`, exactly when some hit's k-distance
      does not exist; otherwise it returns the k-distances of all hits in
      non-increasing order. */
  lemma KDistResultShape(adcs: seq<seq<int>>, k: int)
    ensures var rs := PerHit(Hits(adcs), k);
      KDistResult(adcs, k).Err? <==> exists i | 0 <= i < |rs| :: rs[i].Err?
    ensures KDistResult(adcs, k).Err? ==> KDistResult(adcs, k).error == IndexError
    ensures var rs := PerHit(Hits(adcs), k);
      KDistResult(adcs, k).Ok? ==>
        |KDistResult(adcs, k).value| == |rs| && Descending(KDistResult(adcs, k).value) &&
        multiset(KDistResult(adcs, k).value) == multiset(OkValues(rs))
  {
    var rs := PerHit(Hits(adcs), k);
    CollectPerHit(rs, |rs|);
    PerHitErrors(Hits(adcs), k);
    if forall i | 0 <= i < |rs| :: rs[i].Ok? {
      CollectAllOk(rs);
      SortDescendingSorts(OkValues(rs));
    }
  }

  lemma AllZeroSorted(z: seq<int>)
    requires forall i | 0 <= i < |z| :: z[i] == 0
    ensures SortDescending(z) == z
  {
    var r := SortDescending(z);
    SortDescendingSorts(z);
    forall i | 0 <= i < |r| ensures r[i] == 0 {
      assert r[i] in multiset(z);
    }
  }

  /** With `k = 0` every hit's k-distance is 0. */
  lemma ZeroDistAllZero(adcs: seq<seq<int>>)
    ensures KDistResult(adcs, 0) == Ok(seq(|Hits(adcs)|, _ => 0))
  {
    var hits := Hits(adcs);
    var rs := PerHit(hits, 0);
    forall i | 0 <= i < |rs| ensures rs[i] == Ok(0) {
      ZeroDistIsZero(hits, hits[i]);
      PerHitAt(hits, 0, i);
    }
    CollectAllOk(rs);
    var zeros := OkValues(rs);
    AllZeroSorted(zeros);
    assert zeros == seq(|hits|, _ => 0);
  }

  /** `k_dist`'s loops. The inner loop builds `x`'s same-plane distance
      list, which is sorted and indexed at `k`; the results are collected
      and finally sorted in non-increasing order. */
  method KDistance(adcs: seq<seq<int>>, k: int) returns (r: Result<seq<int>>)
    ensures r == KDistResult(adcs, k)
    ensures r.Err? <==> exists i | 0 <= i < |Hits(adcs)| :: PerHit(Hits(adcs), k)[i].Err?
    ensures r.Err? ==> r.error == IndexError
    ensures r.Ok? ==> |r.value| == |Hits(adcs)| && Descending(r.value)
    ensures r.Ok? ==> multiset(r.value) == multiset(OkValues(PerHit(Hits(adcs), k)))
  {
    var hits := Hits(adcs);
    ghost var rs := PerHit(hits, k);
    var kDistance: seq<int> := [];
    for i := 0 to |hits|
      invariant CollectUpTo(rs, i) == Ok(kDistance)
    {
      var d := KDistanceOfHit(hits, i, k);
      if d.Err? {
        r := Err(d.error);
        NoRecoveryAfterError(rs, i + 1, |hits|);
        KDistResultShape(adcs, k);
        return;
      }
      kDistance := kDistance + [d.value];
    }
    r := Ok(SortDescending(kDistance));
    KDistResultShape(adcs, k);
  }
}
