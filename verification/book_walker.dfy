/** The book walker: the cost of filling a volume from a best-first depth
    ladder, taking whole levels until the level that completes the volume,
    and only the missing part of that one. */
module BookWalker {
  import opened Outcomes
  import opened Fixed8
  import opened Records

  /** Quantity resting on the first `k` levels. */
  function Depth(ladder: seq<Level>, k: nat): real
    requires k <= |ladder|
  {
    if k == 0 then 0.0 else Depth(ladder, k - 1) + ladder[k - 1].qty
  }

  /** Cost of taking the first `k` levels whole. */
  function Spent(ladder: seq<Level>, k: nat): real
    requires k <= |ladder|
  {
    if k == 0 then 0.0 else Spent(ladder, k - 1) + ladder[k - 1].price * ladder[k - 1].qty
  }

  /** Some non-empty prefix of the ladder holds the volume, or the ladder is
      empty and nothing is asked for. */
  ghost predicate Reaches(ladder: seq<Level>, volume: real) {
    || (exists k :: 1 <= k <= |ladder| && Depth(ladder, k) >= volume)
    || (|ladder| == 0 && volume <= 0.0)
  }

  /** `k` is the shortest non-empty prefix that holds the volume: level
      `k - 1` is the one the volume is completed on. */
  ghost predicate IsFillPoint(ladder: seq<Level>, volume: real, k: int) {
    && 1 <= k <= |ladder|
    && Depth(ladder, k) >= volume
    && forall j :: 1 <= j < k ==> Depth(ladder, j) < volume
  }

  /** Cost of the first `k - 1` levels whole plus the remainder of the
      volume at level `k - 1`'s price. */
  function FillCost(ladder: seq<Level>, volume: real, k: nat): real
    requires 1 <= k <= |ladder|
  {
    Spent(ladder, k - 1) + ladder[k - 1].price * (volume - Depth(ladder, k - 1))
  }

  /** The loop of `getOptimalPriceFromOrders`, from level `i` on, with the
      running filled volume and cost; the result is the final (filled,
      cost). */
  function WalkFrom(ladder: seq<Level>, volume: real, i: nat, filled: real, cost: real): (real, real)
    requires i <= |ladder|
    decreases |ladder| - i
  {
    if i == |ladder| then (filled, cost)
    else if filled + ladder[i].qty >= volume then
      (volume, cost + ladder[i].price * (volume - filled))
    else
      WalkFrom(ladder, volume, i + 1, filled + ladder[i].qty, cost + ladder[i].price * ladder[i].qty)
  }

  /** Started with the totals of the first `i` levels, the walk stops at the
      fill point, filled exactly to the volume, with the fill cost. */
  lemma {:induction false} WalkStopsAtFillPoint(ladder: seq<Level>, volume: real, i: nat, k: int)
    requires i < k && IsFillPoint(ladder, volume, k)
    ensures WalkFrom(ladder, volume, i, Depth(ladder, i), Spent(ladder, i))
            == (volume, FillCost(ladder, volume, k))
    decreases |ladder| - i
  {
    assert Depth(ladder, i + 1) == Depth(ladder, i) + ladder[i].qty;
    assert Spent(ladder, i + 1) == Spent(ladder, i) + ladder[i].price * ladder[i].qty;
    if Depth(ladder, i) + ladder[i].qty >= volume {
      assert k == i + 1;
      assert WalkFrom(ladder, volume, i, Depth(ladder, i), Spent(ladder, i))
             == (volume, Spent(ladder, i) + ladder[i].price * (volume - Depth(ladder, i)));
      assert FillCost(ladder, volume, i + 1)
             == Spent(ladder, i) + ladder[i].price * (volume - Depth(ladder, i));
    } else {
      WalkStopsAtFillPoint(ladder, volume, i + 1, k);
    }
  }

  /** When no later prefix holds the volume the walk takes every level. */
  lemma {:induction false} WalkTakesEverything(ladder: seq<Level>, volume: real, i: nat)
    requires i <= |ladder|
    requires forall j :: i < j <= |ladder| ==> Depth(ladder, j) < volume
    ensures WalkFrom(ladder, volume, i, Depth(ladder, i), Spent(ladder, i))
            == (Depth(ladder, |ladder|), Spent(ladder, |ladder|))
    decreases |ladder| - i
  {
    if i < |ladder| {
      assert Depth(ladder, i + 1) == Depth(ladder, i) + ladder[i].qty;
      assert Spent(ladder, i + 1) == Spent(ladder, i) + ladder[i].price * ladder[i].qty;
      WalkTakesEverything(ladder, volume, i + 1);
    }
  }

  /** A prefix that holds the volume has a shortest one. */
  lemma {:induction false} FillPointExists(ladder: seq<Level>, volume: real, k: nat)
    requires 1 <= k <= |ladder| && Depth(ladder, k) >= volume
    ensures exists f :: IsFillPoint(ladder, volume, f)
  {
    if forall j :: 1 <= j < k ==> Depth(ladder, j) < volume {
      assert IsFillPoint(ladder, volume, k);
    } else {
      var j :| 1 <= j < k && Depth(ladder, j) >= volume;
      FillPointExists(ladder, volume, j);
    }
  }

  /** What the whole walk ends with, in terms of the ladder. */
  lemma WalkOutcome(ladder: seq<Level>, volume: real)
    ensures forall k :: IsFillPoint(ladder, volume, k)
              ==> WalkFrom(ladder, volume, 0, 0.0, 0.0) == (volume, FillCost(ladder, volume, k))
    ensures (forall k :: !IsFillPoint(ladder, volume, k))
              ==> WalkFrom(ladder, volume, 0, 0.0, 0.0) == (Depth(ladder, |ladder|), Spent(ladder, |ladder|))
  {
    forall k | IsFillPoint(ladder, volume, k)
      ensures WalkFrom(ladder, volume, 0, 0.0, 0.0) == (volume, FillCost(ladder, volume, k))
    {
      WalkStopsAtFillPoint(ladder, volume, 0, k);
    }
    if forall k :: !IsFillPoint(ladder, volume, k) {
      forall j | 0 < j <= |ladder| ensures Depth(ladder, j) < volume {
        if Depth(ladder, j) >= volume {
          FillPointExists(ladder, volume, j);
        }
      }
      WalkTakesEverything(ladder, volume, 0);
    }
  }

  /** The subtotal of filling `volume` from the ladder, rounded to eight
      decimals, or None when the ladder runs out first. It is defined
      exactly when some prefix holds the volume (the empty ladder holds a
      volume <= 0, costing nothing); it is then the rounded fill cost at the
      fill point, so levels after it play no part. */
  function GetOptimalPriceFromOrders(ladder: seq<Level>, volume: real): (r: Option<real>)
    ensures r.Some? <==> Reaches(ladder, volume)
    ensures forall k :: IsFillPoint(ladder, volume, k)
              ==> r == Some(Round8(FillCost(ladder, volume, k)))
    ensures |ladder| == 0 && volume <= 0.0 ==> r == Some(0.0)
  {
    WalkOutcome(ladder, volume);
    assert Reaches(ladder, volume) && |ladder| > 0 ==> exists k :: IsFillPoint(ladder, volume, k) by {
      if Reaches(ladder, volume) && |ladder| > 0 {
        var k :| 1 <= k <= |ladder| && Depth(ladder, k) >= volume;
        FillPointExists(ladder, volume, k);
      }
    }
    var (totalVolume, totalPrice) := WalkFrom(ladder, volume, 0, 0.0, 0.0);
    if totalVolume < volume then None else Some(Round8(totalPrice))
  }

  /** The walk never fills past the volume: it stops exactly on it when a
      prefix holds it, and short of it otherwise (an empty ladder fills 0). */
  lemma WalkNeverOverfills(ladder: seq<Level>, volume: real)
    ensures var filled := WalkFrom(ladder, volume, 0, 0.0, 0.0).0;
            && ((exists k :: IsFillPoint(ladder, volume, k)) ==> filled == volume)
            && (|ladder| > 0 ==> filled <= volume)
            && (|ladder| == 0 ==> filled == 0.0)
  {
    WalkOutcome(ladder, volume);
    if |ladder| > 0 && forall k :: !IsFillPoint(ladder, volume, k) {
      if Depth(ladder, |ladder|) >= volume {
        FillPointExists(ladder, volume, |ladder|);
      }
    }
  }

  /** Quantities taken from the ladder are never negative. */
  ghost predicate NonNegativeDepth(ladder: seq<Level>) {
    forall i :: 0 <= i < |ladder| ==> ladder[i].qty >= 0.0
  }

  lemma {:induction false} DepthMonotone(ladder: seq<Level>, j: nat, k: nat)
    requires NonNegativeDepth(ladder) && j <= k <= |ladder|
    ensures Depth(ladder, j) <= Depth(ladder, k)
    decreases k - j
  {
    if j < k {
      DepthMonotone(ladder, j, k - 1);
    }
  }

  /** On a ladder of non-negative quantities the walk succeeds iff the
      whole ladder holds the volume: a volume equal to the total depth is
      filled, anything beyond it is not. */
  lemma LiquidityBoundary(ladder: seq<Level>, volume: real)
    requires NonNegativeDepth(ladder)
    ensures GetOptimalPriceFromOrders(ladder, volume).Some? <==> Depth(ladder, |ladder|) >= volume
  {
    if Reaches(ladder, volume) && |ladder| > 0 {
      var k :| 1 <= k <= |ladder| && Depth(ladder, k) >= volume;
      DepthMonotone(ladder, k, |ladder|);
    }
    if |ladder| > 0 && Depth(ladder, |ladder|) >= volume {
      assert Reaches(ladder, volume);
    }
  }

  lemma ScaleBetween(lo: real, p: real, hi: real, x: real)
    requires lo <= p <= hi && x >= 0.0
    ensures lo * x <= p * x <= hi * x
  {
    assert (p - lo) * x >= 0.0;
    assert (hi - p) * x >= 0.0;
  }

  lemma Distribute(a: real, x: real, y: real)
    ensures a * (x + y) == a * x + a * y
  {
  }

  lemma Split(a: real, x: real, y: real)
    ensures a * y == a * x + a * (y - x)
  {
  }

  /** With non-negative quantities, whole levels priced at least `lo`
      cost at least `lo` per unit. */
  lemma {:induction false} SpentAtLeast(ladder: seq<Level>, k: nat, lo: real)
    requires k <= |ladder| && NonNegativeDepth(ladder)
    requires forall i :: 0 <= i < |ladder| ==> lo <= ladder[i].price
    ensures lo * Depth(ladder, k) <= Spent(ladder, k)
  {
    if k > 0 {
      SpentAtLeast(ladder, k - 1, lo);
      var l := ladder[k - 1];
      ScaleBetween(lo, l.price, l.price, l.qty);
      Distribute(lo, Depth(ladder, k - 1), l.qty);
    }
  }

  /** With non-negative quantities, whole levels priced at most `hi` cost
      at most `hi` per unit. */
  lemma {:induction false} SpentAtMost(ladder: seq<Level>, k: nat, hi: real)
    requires k <= |ladder| && NonNegativeDepth(ladder)
    requires forall i :: 0 <= i < |ladder| ==> ladder[i].price <= hi
    ensures Spent(ladder, k) <= hi * Depth(ladder, k)
  {
    if k > 0 {
      SpentAtMost(ladder, k - 1, hi);
      var l := ladder[k - 1];
      ScaleBetween(l.price, l.price, hi, l.qty);
      Distribute(hi, Depth(ladder, k - 1), l.qty);
    }
  }

  /** The part of the volume taken at the fill level is non-negative when
      the volume is. */
  lemma RemainderNonNegative(ladder: seq<Level>, volume: real, k: nat)
    requires volume >= 0.0 && IsFillPoint(ladder, volume, k)
    ensures volume - Depth(ladder, k - 1) >= 0.0
  {
    if k - 1 > 0 {
      assert Depth(ladder, k - 1) < volume;
    }
  }

  /** A fill on a ladder priced at least `lo` costs at least `lo` per unit. */
  lemma FillCostAtLeast(ladder: seq<Level>, volume: real, k: nat, lo: real)
    requires volume >= 0.0 && NonNegativeDepth(ladder) && IsFillPoint(ladder, volume, k)
    requires forall i :: 0 <= i < |ladder| ==> lo <= ladder[i].price
    ensures lo * volume <= FillCost(ladder, volume, k)
  {
    SpentAtLeast(ladder, k - 1, lo);
    RemainderNonNegative(ladder, volume, k);
    PartialFillAtLeast(Spent(ladder, k - 1), Depth(ladder, k - 1), ladder[k - 1].price, volume, lo);
  }

  lemma PartialFillAtLeast(spent: real, depth: real, p: real, volume: real, lo: real)
    requires lo * depth <= spent && lo <= p && volume - depth >= 0.0
    ensures lo * volume <= spent + p * (volume - depth)
  {
    ScaleBetween(lo, p, p, volume - depth);
    Split(lo, depth, volume);
  }

  /** A fill on a ladder priced at most `hi` costs at most `hi` per unit. */
  lemma FillCostAtMost(ladder: seq<Level>, volume: real, k: nat, hi: real)
    requires volume >= 0.0 && NonNegativeDepth(ladder) && IsFillPoint(ladder, volume, k)
    requires forall i :: 0 <= i < |ladder| ==> ladder[i].price <= hi
    ensures FillCost(ladder, volume, k) <= hi * volume
  {
    SpentAtMost(ladder, k - 1, hi);
    RemainderNonNegative(ladder, volume, k);
    PartialFillAtMost(Spent(ladder, k - 1), Depth(ladder, k - 1), ladder[k - 1].price, volume, hi);
  }

  lemma PartialFillAtMost(spent: real, depth: real, p: real, volume: real, hi: real)
    requires spent <= hi * depth && p <= hi && volume - depth >= 0.0
    ensures spent + p * (volume - depth) <= hi * volume
  {
    ScaleBetween(p, p, hi, volume - depth);
    Split(hi, depth, volume);
  }

  /** Two sides of a book that `m` separates: every ask at least `m`,
      every bid at most `m`, no negative quantity on either side. */
  ghost predicate Uncrossed(asks: seq<Level>, bids: seq<Level>, m: real) {
    && NonNegativeDepth(asks) && NonNegativeDepth(bids)
    && (forall i :: 0 <= i < |asks| ==> m <= asks[i].price)
    && (forall i :: 0 <= i < |bids| ==> bids[i].price <= m)
  }

  /** The walk of a ladder priced at least `m` costs at least as much as
      the walk of one priced at most `m`, for the same positive volume:
      buying from the asks of an uncrossed book is never cheaper than
      selling into its bids. */
  lemma DearerLadderCostsMore(asks: seq<Level>, bids: seq<Level>, volume: real, m: real)
    requires volume > 0.0 && Uncrossed(asks, bids, m)
    requires GetOptimalPriceFromOrders(asks, volume).Some?
    requires GetOptimalPriceFromOrders(bids, volume).Some?
    ensures GetOptimalPriceFromOrders(bids, volume).value <= GetOptimalPriceFromOrders(asks, volume).value
  {
    var ka :| 1 <= ka <= |asks| && Depth(asks, ka) >= volume;
    FillPointExists(asks, volume, ka);
    var fa :| IsFillPoint(asks, volume, fa);
    var kb :| 1 <= kb <= |bids| && Depth(bids, kb) >= volume;
    FillPointExists(bids, volume, kb);
    var fb :| IsFillPoint(bids, volume, fb);
    FillCostAtLeast(asks, volume, fa, m);
    FillCostAtMost(bids, volume, fb, m);
    Round8Monotone(m * volume, FillCost(asks, volume, fa));
    Round8Monotone(FillCost(bids, volume, fb), m * volume);
  }

  /** The example ladder: 1 at 100 and 2 at 101; volume 2 costs
      100 * 1 + 101 * 1 = 201, not 100 * 1 + 101 * 2. */
  lemma WalkExample()
    ensures GetOptimalPriceFromOrders([Level(100.0, 1.0), Level(101.0, 2.0)], 2.0) == Some(201.0)
  {
    var ladder := [Level(100.0, 1.0), Level(101.0, 2.0)];
    assert IsFillPoint(ladder, 2.0, 2);
    Round8Exact(201.0);
  }

  /** The loop of `getOptimalPriceFromOrders`, with its early exit. */
  method WalkOrders(orders: seq<Level>, volume: real) returns (r: Option<real>)
    ensures r == GetOptimalPriceFromOrders(orders, volume)
  {
    var totalVolume := 0.0;
    var totalPrice := 0.0;
    var i := 0;
    while i < |orders|
      invariant 0 <= i <= |orders|
      invariant WalkFrom(orders, volume, i, totalVolume, totalPrice)
                == WalkFrom(orders, volume, 0, 0.0, 0.0)
    {
      if totalVolume + orders[i].qty >= volume {
        assert WalkFrom(orders, volume, i, totalVolume, totalPrice)
               == (volume, totalPrice + orders[i].price * (volume - totalVolume));
        totalPrice := totalPrice + orders[i].price * (volume - totalVolume);
        totalVolume := volume;
        break;
      }
      totalPrice := totalPrice + orders[i].price * orders[i].qty;
      totalVolume := totalVolume + orders[i].qty;
      i := i + 1;
    }
    assert (totalVolume, totalPrice) == WalkFrom(orders, volume, 0, 0.0, 0.0);
    r := if totalVolume < volume then None else Some(Round8(totalPrice));
  }
}
