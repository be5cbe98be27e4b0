/** With aging beyond a priority tier, plans are neither optimal nor stable. */
module AgingLimits {
  import opened Options
  import opened Quantities
  import opened Sorting
  import opened Ranking
  import opened SlotFiller
  import opened Scheduler
  import opened SlotCount
  import opened PlanLaws
  import opened SlotPasses
  import opened SoloGroups

  /** Low rows that have waited a thousand aging steps, then one normal row just queued. */
  function AgedRows(lows: nat, st: Settings, now: int): (rows: seq<Download>)
    ensures |rows| == lows + 1 && Hashless(rows)
  {
    seq(lows + 1, i requires 0 <= i <= lows =>
      if i < lows
      then Download(i, 0, "", -1, "low", Queued, 0, Some(now - 1000 * st.agingStepMin * MINUTE), 0)
      else Download(i, 0, "", -1, "normal", Queued, 0, Some(now), 0))
  }

  lemma MulAtLeast(a: int, d: int)
    requires a >= 1 && d > 0
    ensures a * d >= d
  {
    assert a * d == d + (a - 1) * d;
  }

  lemma Quotient(k: int, d: int)
    requires d > 0
    ensures (k * d) / d == k
  {
    var q := (k * d) / d;
    assert k * d == q * d + (k * d) % d;
    assert (k - q) * d == k * d - q * d && (q - k) * d == q * d - k * d;
    if q < k {
      MulAtLeast(k - q, d);
    } else if q > k {
      MulAtLeast(q - k, d);
    }
  }

  lemma AgedFirst(lows: nat, st: Settings, now: int, i: nat)
    requires !AgingWithinTier(st) && i < lows
    ensures var rows := AgedRows(lows, st, now); PromotionLess(rows[i], rows[lows], st, now)
  {
    Quotient(1000 * st.agingStepMin, MINUTE);
    Quotient(1000, st.agingStepMin);
    assert AgingBonus(AgedRows(lows, st, now)[i], st, now) == 1000;
  }

  /** In any ranking of the aged rows the normal row comes last. */
  lemma AgedOrder(lows: nat, st: Settings, now: int, waiting: seq<Entry>)
    requires !AgingWithinTier(st)
    requires Elems(waiting) == Elems(Solos(AgedRows(lows, st, now)))
    requires Sorted(waiting, PromotedBefore(st, now))
    ensures waiting != [] && waiting[|waiting| - 1] == Solo(AgedRows(lows, st, now)[lows])
  {
    var rows, less := AgedRows(lows, st, now), PromotedBefore(st, now);
    var last := Solo(rows[lows]);
    SoloIn(rows, lows);
    assert last in Elems(waiting);
    forall x | x in waiting && x != last ensures less(x, last) {
      assert x in Elems(waiting);
      var i := SoloOf(rows, x);
      AgedFirst(lows, st, now, i);
    }
    SortedLast(waiting, less, last);
  }

  lemma AllWait(items: seq<Download>, st: Settings, now: int)
    requires Hashless(items) && forall i | 0 <= i < |items| :: items[i].status == Queued
    ensures SortedIncumbents(items, st, now) == [] && |SortedWaiting(items, st, now)| == |items|
    ensures Elems(SortedWaiting(items, st, now)) == Elems(Solos(items))
  {
    SoloEntries(items, st, now);
    forall i | 0 <= i < |items| ensures !Incumbent(Solos(items)[i]) {
      SoloIn(items, i);
    }
    SelectUniform(Solos(items), false);
    SameElems(Solos(items), SortedWaiting(items, st, now));
  }

  /** The normal row is ranked behind all the aged ones. */
  lemma AgedRanks(lows: nat, st: Settings, now: int)
    requires !AgingWithinTier(st)
    ensures var items := AgedRows(lows, st, now);
            && Hashless(items)
            && SortedIncumbents(items, st, now) == []
            && |SortedWaiting(items, st, now)| == lows + 1
            && SortedWaiting(items, st, now)[lows] == Solo(items[lows])
  {
    var items := AgedRows(lows, st, now);
    AllWait(items, st, now);
    PromotionSorts(items, st, now);
    AgedOrder(lows, st, now, SortedWaiting(items, st, now));
  }

  /** Without incumbents, the groups behind the first `maxActive` waiting ones get nothing. */
  lemma OneTooMany(waiting: seq<Entry>, lim: Limits)
    requires NoDup(waiting) && Slack(lim) && lim.maxActive > 0 && |waiting| == lim.maxActive + 1
    requires forall e | e in Elems(waiting) :: !Incumbent(e)
    ensures |Fill([], waiting, lim)| == lim.maxActive
    ensures waiting[lim.maxActive] !in Fill([], waiting, lim)
  {
    var init := waiting[..lim.maxActive];
    assert waiting[..|waiting| - 1] == init;
    var active := Fill([], init, lim);
    var none: seq<Entry> := [];
    assert Elems(none) + Elems(init) == Elems(init);
    FillPacked(none, init, lim);
    ElemsCardinality(init);
    ElemsCardinality(active);
    if Room(active, lim) {
      SubsetCount(Elems(init), Elems(active));
    }
    assert forall a | a in active :: a in Elems(active);
    assert forall a | a in Elems(init) :: a in Elems(waiting) && a != waiting[lim.maxActive];
    assert WeakestIncumbent(active) < 0;
  }

  /** All slots go to aged low rows, and the normal row waits. */
  lemma AgedTakeAll(st: Settings, now: int)
    requires Slack(LimitsOf(st)) && !AgingWithinTier(st)
    ensures var lows := LimitsOf(st).maxActive; var items := AgedRows(lows, st, now);
            && |Chosen(items, st, now)| == lows
            && Solo(items[lows]) !in Chosen(items, st, now)
  {
    var lows := LimitsOf(st).maxActive;
    AgedRanks(lows, st, now);
    SortedEntries(AgedRows(lows, st, now), st, now);
    OneTooMany(SortedWaiting(AgedRows(lows, st, now), st, now), LimitsOf(st));
  }

  /** Rows of a lower tier hold every slot, and the user of the one left out is below any cap. */
  lemma AgingInvertsTiers(st: Settings, now: int)
    requires Slack(LimitsOf(st)) && !AgingWithinTier(st)
    ensures !Optimal(AgedRows(LimitsOf(st).maxActive, st, now), st, now)
    ensures !OptimalUnderCap(AgedRows(LimitsOf(st).maxActive, st, now), st, now)
  {
    var lows := LimitsOf(st).maxActive;
    var items := AgedRows(lows, st, now);
    OptimalEitherWay(items, st, now);
    AgedRanks(lows, st, now);
    AgedTakeAll(st, now);
    SoloEntries(items, st, now);
    ChosenAreEntries(items, st, now);
    SlackAdmits(Chosen(items, st, now), 0, LimitsOf(st));
    LowHoldsSlot(lows, st, now, Chosen(items, st, now));
  }

  lemma LowHoldsSlot(lows: nat, st: Settings, now: int, chosen: seq<Entry>)
    requires chosen != [] && Solo(AgedRows(lows, st, now)[lows]) !in chosen
    requires forall e | e in chosen :: e in Elems(Solos(AgedRows(lows, st, now)))
    requires Under(chosen, 0, LimitsOf(st))
    ensures !BestUnderCap(chosen, Elems(Solos(AgedRows(lows, st, now))), LimitsOf(st))
  {
    var rows := AgedRows(lows, st, now);
    SoloIn(rows, lows);
    assert chosen[0] in Elems(chosen) && chosen[0] in chosen;
    var i := SoloOf(rows, chosen[0]);
    assert Base(Solo(rows[i])) == 1 && Base(Solo(rows[lows])) == 2;
  }

  lemma AgedAfter(lows: nat, st: Settings, now: int, plan: set<int>)
    requires lows !in plan
    ensures Schedulable(AgedRows(lows, st, now))
    ensures var rows := AllLanded(AgedRows(lows, st, now), plan, now);
            && Hashless(rows)
            && (forall i | 0 <= i < lows :: PriorityBase(rows[i].priority) == 1)
            && PriorityBase(rows[lows].priority) == 2 && rows[lows].status == Queued
  {
  }

  lemma AgedPlan(st: Settings, now: int)
    requires Slack(LimitsOf(st)) && !AgingWithinTier(st)
    ensures var lows := LimitsOf(st).maxActive; var items := AgedRows(lows, st, now);
            && Hashless(items)
            && |Chosen(items, st, now)| == lows
            && items[lows].id !in Plan(items, st, now)
  {
    var lows := LimitsOf(st).maxActive;
    AgedRanks(lows, st, now);
    AgedTakeAll(st, now);
    SoloLeftOut(AgedRows(lows, st, now), st, now, lows);
  }

  /** The plan is not a fixpoint: the next pass swaps a row in for one of a lower tier. */
  lemma AgingNeedsAnotherPass(st: Settings, now: int)
    requires Slack(LimitsOf(st)) && !AgingWithinTier(st)
    ensures !Stable(AgedRows(LimitsOf(st).maxActive, st, now), st, now)
  {
    var lows := LimitsOf(st).maxActive;
    var items := AgedRows(lows, st, now);
    var after := AllLanded(items, Plan(items, st, now), now);
    AgedPlan(st, now);
    AgedAfter(lows, st, now, Plan(items, st, now));
    LandedApplied(items, Plan(items, st, now), now);
    IncumbentsCarriedOver(items, st, now, after, now);
    WaitingNormalGetsIn(after, st, now);
    Unsettled(items, st, now, lows);
  }

  /** Full slots, held by low rows only: a waiting normal row is let in. */
  lemma WaitingNormalGetsIn(rows: seq<Download>, st: Settings, now: int)
    requires Slack(LimitsOf(st)) && |rows| == LimitsOf(st).maxActive + 1 && Hashless(rows)
    requires forall i | 0 <= i < |rows| - 1 :: PriorityBase(rows[i].priority) == 1
    requires PriorityBase(rows[|rows| - 1].priority) == 2 && rows[|rows| - 1].status == Queued
    requires |SortedIncumbents(rows, st, now)| == LimitsOf(st).maxActive
    ensures Solo(rows[|rows| - 1]) in Chosen(rows, st, now)
  {
    SoloEntries(rows, st, now);
    SoloIn(rows, |rows| - 1);
    RankedSizes(rows, st, now);
    SortedEntries(rows, st, now);
    NormalOutranks(rows);
    OnlyOneWaits(SortedIncumbents(rows, st, now), SortedWaiting(rows, st, now), LimitsOf(st),
                 Elems(Solos(rows)), Solo(rows[|rows| - 1]));
  }

  lemma NormalOutranks(rows: seq<Download>)
    requires rows != [] && PriorityBase(rows[|rows| - 1].priority) == 2
    requires forall i | 0 <= i < |rows| - 1 :: PriorityBase(rows[i].priority) == 1
    ensures var last := Solo(rows[|rows| - 1]);
            forall e | e in Elems(Solos(rows)) && e != last :: Base(e) < Base(last)
  {
    var n := |rows| - 1;
    var last := Solo(rows[n]);
    assert Base(last) == 2;
    forall e | e in Elems(Solos(rows)) && e != last ensures Base(e) < Base(last) {
      var i := SoloOf(rows, e);
      assert i < n;
    }
  }

  lemma OnlyOneWaits(inc: seq<Entry>, waiting: seq<Entry>, lim: Limits, all: set<Entry>, last: Entry)
    requires Ranked(inc, waiting) && Elems(inc) + Elems(waiting) == all && Slack(lim)
    requires last in all && !Incumbent(last) && |inc| == lim.maxActive > 0 && |waiting| == 1
    requires forall e | e in all && e != last :: Base(e) < Base(last)
    ensures last in Fill(inc, waiting, lim)
  {
    assert last !in Elems(inc) && last in Elems(waiting);
    assert waiting == [last];
    SeatIsPrefix(inc, lim);
    assert inc[..|inc|] == inc;
    SlackAdmits(inc, last.rep.userId, lim);
    assert inc[0] in Elems(inc);
    HeadGetsIn(inc, waiting, lim, inc[0]);
  }
}
