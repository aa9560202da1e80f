/**
  How much of an order is filled, from the opposite side's orders alone: the
  orders priced within its limit serve it from the front, unless that takes more
  than 256 of them.
 */
module Fills {
  import opened Domain
  import opened Book
  import opened Reference
  import opened Matching
  import opened PropertyCheck
  import opened Views

  /** More than 256 orders are within the limit, and the first 256 are not enough. */
  ghost predicate Cut(reach: seq<RestingOrderView>, quantity: nat) {
    |reach| > 256 && SumOf(reach[..256]) < quantity
  }

  /** The least number of orders from the front that hold the quantity; all of them when they do not. */
  ghost predicate Suffices(reach: seq<RestingOrderView>, quantity: nat, n: nat) {
    && n <= |reach|
    && (forall k :: 0 <= k < n ==> SumOf(reach[..k]) < quantity)
    && (n == |reach| || SumOf(reach[..n]) >= quantity)
  }

  ghost function Needed(reach: seq<RestingOrderView>, quantity: nat): (n: nat)
    ensures Suffices(reach, quantity, n)
  {
    var m := |reach| - 1;
    if m >= 0 && SumOf(reach[..m]) >= quantity then
      assert forall k :: 0 <= k <= m ==> reach[..m][..k] == reach[..k];
      Needed(reach[..m], quantity)
    else
      assert forall k :: 0 <= k < |reach| ==> SumOf(reach[..k]) <= SumOf(reach[..m]) by {
        forall k | 0 <= k < |reach| ensures SumOf(reach[..k]) <= SumOf(reach[..m]) {
          SumGrows(reach, k, m);
        }
      }
      |reach|
  }

  lemma {:induction false} SumConcat(a: seq<RestingOrderView>, b: seq<RestingOrderView>)
    ensures SumOf(a + b) == SumOf(a) + SumOf(b)
  {
    if a == [] {
      assert a + b == b;
    } else {
      SumConcat(a[1..], b);
      assert (a + b)[1..] == a[1..] + b;
    }
  }

  lemma SumStep(views: seq<RestingOrderView>, k: nat)
    requires k < |views|
    ensures SumOf(views[..k + 1]) == SumOf(views[..k]) + views[k].leaves
  {
    assert views[..k + 1] == views[..k] + [views[k]];
    SumConcat(views[..k], [views[k]]);
    assert SumOf([views[k]]) == views[k].leaves;
  }

  lemma SumGrows(views: seq<RestingOrderView>, k: nat, l: nat)
    requires k <= l <= |views|
    ensures SumOf(views[..k]) <= SumOf(views[..l])
  {
    assert views[..l] == views[..k] + views[k..l];
    SumConcat(views[..k], views[k..l]);
  }

  lemma NeededOnce(reach: seq<RestingOrderView>, quantity: nat, n: nat)
    requires Suffices(reach, quantity, n)
    ensures n == Needed(reach, quantity)
  {
    var m := Needed(reach, quantity);
    var a, b := SumOf(reach[..m]), SumOf(reach[..n]);
  }

  /** What the first n orders of a side leave behind when they gave up a quantity. */
  ghost predicate LeftBehind(views: seq<RestingOrderView>, quantity: nat, n: nat, after: seq<RestingOrderView>) {
    && n <= |views|
    && if SumOf(views[..n]) <= quantity then after == views[n..]
       else
         && n > 0 && after != [] && after[1..] == views[n..]
         && after[0].leaves == SumOf(views[..n]) - quantity
         && after[0] == views[n - 1].(leaves := after[0].leaves)
  }

  /** The orders within the limit are the front of the side. */
  lemma {:induction false} ReachIsFront(side: Side, limit: PriceTicks, views: seq<RestingOrderView>)
    requires IsSide(side) && Ranked(Opposite(side), views)
    ensures var keep := WithinLimit(side, limit);
            var n := |Select(keep, views)|;
            && n <= |views| && Select(keep, views) == views[..n]
            && (forall k :: 0 <= k < n ==> keep(views[k]))
            && (forall k :: n <= k < |views| ==> !keep(views[k]))
    decreases |views|
  {
    var keep := WithinLimit(side, limit);
    if views == [] {
    } else if !keep(views[0]) {
      SelectNone(keep, views);
    } else {
      ReachIsFront(side, limit, views[1..]);
    }
  }

  /** Taking stops short only at the fill bound, with more to take. */
  lemma {:induction false} TakeStops(side: Side, limit: PriceTicks, levels: seq<Level>, remainder: Quantity,
                                     planned: seq<PlannedFill>)
    requires WfSide(Opposite(side), levels) && |planned| <= 256
    ensures var t := Take(side, limit, levels, remainder, planned);
            && |t.planned| <= 256
            && (!t.withinCapacity ==> |t.planned| == 256 && Continues(side, limit, t.levels, t.remainder))
    decreases remainder
  {
    if !Continues(side, limit, levels, remainder) || |planned| >= MAXIMUM_FILLS_PER_COMMAND {
    } else {
      FrontIsWf(Opposite(side), levels);
      var fill := FrontFill(levels, remainder);
      AfterFillWf(Opposite(side), levels, fill.quantity);
      hide WfSide, AfterFill;
      TakeStops(side, limit, AfterFill(levels, fill.quantity), remainder - fill.quantity, planned + [fill]);
    }
  }

  /** All fills but the last are whole, so fills and leaves add up alike. */
  lemma {:induction false} FillsAddUp(side: Side, limit: PriceTicks, views: seq<RestingOrderView>,
                                      fills: seq<PlannedFill>, k: nat)
    requires PriorityPrefix(side, limit, views, fills) && k <= |fills|
    ensures k < |fills| || AllFull(views, fills) ==> FillTotal(fills[..k]) == SumOf(views[..k])
    ensures FillTotal(fills[..k]) <= SumOf(views[..k])
  {
    if k == 0 {
    } else {
      FillsAddUp(side, limit, views, fills, k - 1);
      SumStep(views, k - 1);
      assert fills[..k][..k - 1] == fills[..k - 1];
    }
  }

  /** What the orders within the limit say about the fills. */
  ghost predicate Serves(reach: seq<RestingOrderView>, quantity: nat, fills: seq<PlannedFill>) {
    && |fills| == Needed(reach, quantity)
    && FillTotal(fills) == (if SumOf(reach) < quantity then SumOf(reach) else quantity)
    && forall k :: 0 <= k < |fills| ==>
         && SumOf(reach[..k]) < quantity
         && fills[k].restingOrderId == reach[k].orderId && fills[k].restingPrice == reach[k].price
         && fills[k].quantity == if quantity - SumOf(reach[..k]) < reach[k].leaves then quantity - SumOf(reach[..k])
                                 else reach[k].leaves
  }

  lemma FillsReach(side: Side, limit: PriceTicks, views: seq<RestingOrderView>, fills: seq<PlannedFill>)
    requires IsSide(side) && Ranked(Opposite(side), views) && PriorityPrefix(side, limit, views, fills)
    ensures |fills| <= |Select(WithinLimit(side, limit), views)| <= |views|
  {
    ReachIsFront(side, limit, views);
    var n := |fills|;
    assert n > 0 ==> Crosses(side, limit, views[n - 1].price);
    assert n > 0 ==> WithinLimit(side, limit)(views[n - 1]);
  }

  /** Fills in priority that end where they should serve the order. */
  lemma PriorityServes(side: Side, limit: PriceTicks, views: seq<RestingOrderView>, fills: seq<PlannedFill>, quantity: nat)
    requires IsSide(side) && Ranked(Opposite(side), views) && PriorityPrefix(side, limit, views, fills)
    requires FillTotal(fills) <= quantity
    requires FillTotal(fills) < quantity ==> AllFull(views, fills) && |fills| == |Select(WithinLimit(side, limit), views)|
    ensures Serves(Select(WithinLimit(side, limit), views), quantity, fills)
  {
    hide PriorityPrefix, Ranked, Select, AllFull;
    var reach, n := Select(WithinLimit(side, limit), views), |fills|;
    ReachIsFront(side, limit, views);
    FillsReach(side, limit, views, fills);
    FillsAddUp(side, limit, views, fills, n);
    assert fills[..n] == fills && reach[..n] == views[..n] && reach[..|reach|] == reach;
    SumGrows(reach, n, |reach|);
    forall k | 0 <= k < n
      ensures SumOf(reach[..k]) < quantity
      ensures fills[k].restingOrderId == reach[k].orderId && fills[k].restingPrice == reach[k].price
      ensures fills[k].quantity == if quantity - SumOf(reach[..k]) < reach[k].leaves then quantity - SumOf(reach[..k])
                                   else reach[k].leaves
    {
      FillServes(side, limit, views, fills, quantity, k);
      assert reach[..k] == views[..k];
    }
    NeededOnce(reach, quantity, n);
  }

  lemma FillServes(side: Side, limit: PriceTicks, views: seq<RestingOrderView>, fills: seq<PlannedFill>,
                   quantity: nat, k: nat)
    requires PriorityPrefix(side, limit, views, fills) && k < |fills|
    requires FillTotal(fills) <= quantity && (FillTotal(fills) < quantity ==> AllFull(views, fills))
    ensures SumOf(views[..k]) < quantity
    ensures fills[k].restingOrderId == views[k].orderId && fills[k].restingPrice == views[k].price
    ensures fills[k].quantity == if quantity - SumOf(views[..k]) < views[k].leaves then quantity - SumOf(views[..k])
                                 else views[k].leaves
  {
    FillsAddUp(side, limit, views, fills, k);
    NextFill(side, limit, views, fills, quantity, k);
    TotalSplits(fills, k);
  }

  /** What fills that serve an order leave of the side. */
  lemma {:induction false} RemainingIsLeft(side: Side, limit: PriceTicks, views: seq<RestingOrderView>,
                                           fills: seq<PlannedFill>)
    requires PriorityPrefix(side, limit, views, fills)
    ensures LeftBehind(views, FillTotal(fills), |fills|, Remaining(views, fills))
  {
    var n := |fills|;
    assert fills[..n] == fills;
    FillsAddUp(side, limit, views, fills, n);
    if n > 0 {
      FillsAddUp(side, limit, views, fills, n - 1);
      SumStep(views, n - 1);
      if fills[n - 1].quantity != views[n - 1].leaves {
        var after := Remaining(views, fills);
        assert after[1..] == views[n..];
      }
    }
  }

  /**
    Taking, told by the orders of the side: it is cut exactly when more than
    256 of them are within the limit and the first 256 hold less than the
    quantity, and otherwise fills the smaller of the quantity and what they hold.
   */
  lemma TakeServes(side: Side, limit: PriceTicks, levels: seq<Level>, quantity: Quantity)
    requires IsSide(side) && WfSide(Opposite(side), levels)
    ensures var t, views := Take(side, limit, levels, quantity, []), Flat(Opposite(side), levels);
            var reach := Select(WithinLimit(side, limit), views);
            && (t.withinCapacity <==> !Cut(reach, quantity))
            && t.remainder <= quantity
            && (t.withinCapacity ==>
                  && Serves(reach, quantity, t.planned)
                  && t.remainder == quantity - FillTotal(t.planned)
                  && LeftBehind(views, FillTotal(t.planned), |t.planned|, Flat(Opposite(side), t.levels)))
  {
    hide PriorityPrefix, Select, AllFull, WfSide, Ranked, Remaining, Take, Serves, LeftBehind, Flat;
    var opposite, t, views := Opposite(side), Take(side, limit, levels, quantity, []), Flat(Opposite(side), levels);
    var reach := Select(WithinLimit(side, limit), views);
    FlatRanked(opposite, levels);
    TakeIsPriorityPrefix(side, limit, levels, quantity, []);
    TakeEffect(side, limit, levels, quantity, []);
    TakeStops(side, limit, levels, quantity, []);
    assert t.planned[0..] == t.planned;
    FillsReach(side, limit, views, t.planned);
    RemainingIsLeft(side, limit, views, t.planned);
    if t.withinCapacity {
      EndsAtReach(side, limit, views, t);
      PriorityServes(side, limit, views, t.planned, quantity);
      ServedIsNotCut(reach, quantity, t.planned);
    } else {
      StopsWithinReach(side, limit, views, t);
      FillsAddUp(side, limit, views, t.planned, 256);
      assert t.planned[..256] == t.planned;
      ReachIsFront(side, limit, views);
      assert reach[..256] == views[..256];
    }
  }

  lemma EndsAtReach(side: Side, limit: PriceTicks, views: seq<RestingOrderView>, t: Taken)
    requires IsSide(side) && Ranked(Opposite(side), views)
    requires TookByPriority(side, limit, views, [], t) && t.withinCapacity && t.planned[0..] == t.planned
    ensures t.remainder != 0 ==> AllFull(views, t.planned) && |t.planned| == |Select(WithinLimit(side, limit), views)|
  {
    ReachIsFront(side, limit, views);
    FillsReach(side, limit, views, t.planned);
    hide Select, PriorityPrefix, AllFull, Ranked;
    var n := |t.planned|;
    assert t.remainder != 0 && n < |views| ==> !WithinLimit(side, limit)(views[n]);
  }

  lemma StopsWithinReach(side: Side, limit: PriceTicks, views: seq<RestingOrderView>, t: Taken)
    requires IsSide(side) && Ranked(Opposite(side), views) && WfSide(Opposite(side), t.levels)
    requires TookByPriority(side, limit, views, [], t) && t.planned[0..] == t.planned
    requires Continues(side, limit, t.levels, t.remainder)
    ensures AllFull(views, t.planned) && |t.planned| < |Select(WithinLimit(side, limit), views)|
  {
    var n := |t.planned|;
    FlatEmpty(Opposite(side), t.levels);
    assert Remaining(views, t.planned) == views[n..];
    assert views[n].price == t.levels[0].price;
    ReachIsFront(side, limit, views);
    assert WithinLimit(side, limit)(views[n]);
  }

  lemma ServedIsNotCut(reach: seq<RestingOrderView>, quantity: nat, fills: seq<PlannedFill>)
    requires Serves(reach, quantity, fills) && |fills| <= 256
    ensures !Cut(reach, quantity)
  {
    if |reach| > 256 {
      SumGrows(reach, |fills|, 256);
    }
  }
}
