/** With a per-user cap that can bind, plans are neither optimal nor stable. */
module CapLimits {
  import opened Options
  import opened Sorting
  import opened Ranking
  import opened SlotFiller
  import opened Scheduler
  import opened SlotCount
  import opened PlanLaws
  import opened SlotPasses
  import opened SoloGroups

  /**
    * `cap` low rows of user 1 are running; waiting are one high row of user 1 and, each of a user of
    * their own, one normal row more than there are free slots.
    */
  function CappedRows(cap: nat, free: nat): (rows: seq<Download>)
    ensures |rows| == cap + 1 + free + 1 && Hashless(rows)
  {
    seq(cap + 1 + free + 1, i requires 0 <= i < cap + 1 + free + 1 =>
      if i < cap then Download(i, 1, "", -1, "low", Downloading, 0, None, 0)
      else if i == cap then Download(i, 1, "", -1, "high", Queued, 0, None, 0)
      else Download(i, 1 + i, "", -1, "normal", Queued, 0, None, 0))
  }

  function Lows(cap: nat, free: nat): seq<Entry> {
    Solos(CappedRows(cap, free)[..cap])
  }

  function Others(cap: nat, free: nat): seq<Entry> {
    Solos(CappedRows(cap, free)[cap..])
  }

  lemma LowsRun(cap: nat, free: nat)
    ensures Select(Lows(cap, free), true) == Lows(cap, free) && Select(Lows(cap, free), false) == []
  {
    var rows := CappedRows(cap, free)[..cap];
    forall i | 0 <= i < cap ensures Incumbent(Solos(rows)[i]) {
      SoloIn(rows, i);
    }
    SelectUniform(Solos(rows), true);
  }

  lemma OthersWait(cap: nat, free: nat)
    ensures Select(Others(cap, free), false) == Others(cap, free) && Select(Others(cap, free), true) == []
  {
    var rows := CappedRows(cap, free)[cap..];
    forall i | 0 <= i < |rows| ensures !Incumbent(Solos(rows)[i]) {
      SoloIn(rows, i);
    }
    SelectUniform(Solos(rows), false);
  }

  lemma CappedSelects(cap: nat, free: nat, st: Settings, now: int)
    ensures var items := CappedRows(cap, free);
            && Hashless(items)
            && Select(Entries(items, st, now), true) == Lows(cap, free)
            && Select(Entries(items, st, now), false) == Others(cap, free)
  {
    var items, lows, others := CappedRows(cap, free), Lows(cap, free), Others(cap, free);
    SoloEntries(items, st, now);
    assert Solos(items) == lows + others;
    LowsRun(cap, free);
    OthersWait(cap, free);
    SelectConcat(lows, others, true);
    SelectConcat(lows, others, false);
  }

  /**
    * All slots but the free ones are held by user `u`, at its cap; first in the queue is `u` again, then others
    * with nothing running.
    */
  ghost predicate CapScene(inc: seq<Entry>, waiting: seq<Entry>, lim: Limits, u: int) {
    && 0 < |inc| == lim.perUserMax <= lim.maxActive
    && |waiting| == lim.maxActive - |inc| + 2
    && waiting[0].rep.userId == u
    && (forall i | 0 <= i < |inc| :: inc[i].rep.userId == u && Incumbent(inc[i]) && Base(inc[i]) == 1)
    && (forall k | 0 <= k < |waiting| :: !Incumbent(waiting[k]))
    && (forall k | 0 < k < |waiting| :: waiting[k].rep.userId != u && Base(waiting[k]) == 2)
    && (forall k | 0 < k < |waiting| :: UserCount(Elems(inc + waiting[1..k]), waiting[k].rep.userId) == 0)
  }

  lemma OneUsersOwn(s: seq<Entry>, u: int)
    requires forall i | 0 <= i < |s| :: s[i].rep.userId == u
    ensures OfUser(Elems(s), u) == Elems(s)
    ensures forall v | v != u :: OfUser(Elems(s), v) == {}
  {
  }

  /** Considering one waiting group changes the active ones to `next`. */
  lemma FillNext(inc: seq<Entry>, waiting: seq<Entry>, lim: Limits, k: nat, active: seq<Entry>, next: seq<Entry>)
    requires k < |waiting| && Fill(inc, waiting[..k], lim) == active
    requires next == if Room(active, lim) && Under(active, waiting[k].rep.userId, lim) then active + [waiting[k]]
                     else Preempt(active, waiting[k], lim)
    ensures Fill(inc, waiting[..k + 1], lim) == next
  {
    assert waiting[..k + 1][..k] == waiting[..k];
  }

  lemma CapSeats(inc: seq<Entry>, waiting: seq<Entry>, lim: Limits, u: int)
    requires CapScene(inc, waiting, lim, u) && NoDup(inc)
    ensures Seat(inc, lim) == inc && UserCount(Elems(inc), u) == lim.perUserMax
  {
    OneUsersOwn(inc, u);
    ElemsCardinality(inc);
    SeatAll(inc, |inc|, lim);
    assert inc[..|inc|] == inc;
  }

  /** While slots are free the other users' groups take them, and the capped user's waiter is passed over. */
  lemma {:induction false} CapRoom(inc: seq<Entry>, waiting: seq<Entry>, lim: Limits, u: int, k: nat)
    requires CapScene(inc, waiting, lim, u) && NoDup(inc) && k <= lim.maxActive - |inc|
    ensures Fill(inc, waiting[..k + 1], lim) == inc + waiting[1..k + 1]
  {
    if k == 0 {
      CapSeats(inc, waiting, lim, u);
      assert inc + waiting[1..1] == inc;
      FillNext(inc, waiting, lim, 0, inc, inc);
    } else {
      CapRoom(inc, waiting, lim, u, k - 1);
      var active, e := inc + waiting[1..k], waiting[k];
      assert active + [e] == inc + waiting[1..k + 1];
      FillNext(inc, waiting, lim, k, active, active + [e]);
    }
  }

  /** Among running low groups and waiting groups, the weakest incumbent is one of the low ones. */
  lemma WeakestIsLow(lows: seq<Entry>, others: seq<Entry>)
    requires lows != []
    requires forall i | 0 <= i < |lows| :: Incumbent(lows[i]) && Base(lows[i]) == 1
    requires forall i | 0 <= i < |others| :: !Incumbent(others[i])
    ensures var w := WeakestIncumbent(lows + others); 0 <= w < |lows|
  {
    assert (lows + others)[0] == lows[0] && lows[0] in lows + others;
  }

  lemma CountWithout(s: seq<Entry>, others: seq<Entry>, u: int)
    requires forall i | 0 <= i < |others| :: others[i].rep.userId != u
    ensures UserCount(Elems(s + others), u) == UserCount(Elems(s), u)
  {
    assert OfUser(Elems(s + others), u) == OfUser(Elems(s), u);
  }

  /** With the slots full, the last normal group finds a low group of the capped user to preempt. */
  lemma CapVictim(inc: seq<Entry>, waiting: seq<Entry>, lim: Limits, u: int)
    requires CapScene(inc, waiting, lim, u)
    ensures var n := |waiting| - 1; var active := inc + waiting[1..n]; var w := WeakestIncumbent(active);
            && 0 <= w < |inc| && !Room(active, lim)
            && Preempt(active, waiting[n], lim) == active[w := waiting[n]]
  {
    var n := |waiting| - 1;
    var active := inc + waiting[1..n];
    WeakestIsLow(inc, waiting[1..n]);
    assert active[WeakestIncumbent(active)] == inc[WeakestIncumbent(active)];
    assert UserCount(Elems(active), waiting[n].rep.userId) == 0;
  }

  lemma CapFill(inc: seq<Entry>, waiting: seq<Entry>, lim: Limits, u: int)
    requires CapScene(inc, waiting, lim, u) && NoDup(inc)
    ensures var n := |waiting| - 1; var active := inc + waiting[1..n]; var w := WeakestIncumbent(active);
            0 <= w < |inc| && Fill(inc, waiting, lim) == active[w := waiting[n]]
  {
    CapFilled(inc, waiting, lim, u);
    CapVictim(inc, waiting, lim, u);
    LastTurn(inc, waiting, lim, |waiting| - 1, inc + waiting[1..|waiting| - 1]);
  }

  lemma CapFilled(inc: seq<Entry>, waiting: seq<Entry>, lim: Limits, u: int)
    requires CapScene(inc, waiting, lim, u) && NoDup(inc)
    ensures var n := |waiting| - 1; Fill(inc, waiting[..n], lim) == inc + waiting[1..n]
  {
    CapRoom(inc, waiting, lim, u, |waiting| - 2);
  }

  lemma LastTurn(inc: seq<Entry>, waiting: seq<Entry>, lim: Limits, n: nat, active: seq<Entry>)
    requires n + 1 == |waiting| && Fill(inc, waiting[..n], lim) == active && !Room(active, lim)
    ensures Fill(inc, waiting, lim) == Preempt(active, waiting[n], lim)
  {
    FillNext(inc, waiting, lim, n, active, Preempt(active, waiting[n], lim));
    assert waiting[..n + 1] == waiting;
  }

  /** Who is who in the scene. */
  lemma CapUsers(inc: seq<Entry>, waiting: seq<Entry>, lim: Limits, u: int)
    requires CapScene(inc, waiting, lim, u) && NoDup(inc)
    ensures var n := |waiting| - 1; var active := inc + waiting[1..n];
            && |active| == lim.maxActive && |waiting| > 1 && waiting[n].rep.userId != u
            && (forall i | 0 <= i < |inc| :: inc[i].rep.userId == u)
            && UserCount(Elems(active), u) == lim.perUserMax
  {
    var n := |waiting| - 1;
    CapSeats(inc, waiting, lim, u);
    CountWithout(inc, waiting[1..n], u);
  }

  /** The capped user ends one below its cap, its waiter left out, and the last normal group in. */
  lemma CapOutcome(inc: seq<Entry>, waiting: seq<Entry>, lim: Limits, u: int)
    requires CapScene(inc, waiting, lim, u) && NoDup(inc) && NoDup(waiting) && Elems(inc) !! Elems(waiting)
    ensures var r := Fill(inc, waiting, lim);
            && |r| == lim.maxActive && waiting[0] !in r && waiting[|waiting| - 1] in r
            && UserCount(Elems(r), u) == lim.perUserMax - 1
  {
    var n := |waiting| - 1;
    var w := WeakestIncumbent(inc + waiting[1..n]);
    CapFill(inc, waiting, lim, u);
    CapUsers(inc, waiting, lim, u);
    SwapOutcome(inc, waiting, w, u);
  }

  lemma SwapOutcome(inc: seq<Entry>, waiting: seq<Entry>, w: nat, u: int)
    requires NoDup(inc) && NoDup(waiting) && Elems(inc) !! Elems(waiting) && |waiting| > 1 && w < |inc|
    requires inc[w].rep.userId == u != waiting[|waiting| - 1].rep.userId
    ensures var n := |waiting| - 1; var active := inc + waiting[1..n]; var r := active[w := waiting[n]];
            && waiting[0] !in r && waiting[n] in r
            && UserCount(Elems(r), u) == UserCount(Elems(active), u) - 1
  {
    var n := |waiting| - 1;
    var active := inc + waiting[1..n];
    forall i, k | 0 <= i < |inc| && 0 <= k < |waiting| ensures inc[i] != waiting[k] {
      assert inc[i] in Elems(inc) && waiting[k] in Elems(waiting);
    }
    assert active[w := waiting[n]][w] == waiting[n];
    CountSwapped(active, w, waiting[n], u);
  }

  /** Without bonuses, a high group is ranked before all others. */
  lemma HighFirst(rows: seq<Download>, k: nat, waiting: seq<Entry>, st: Settings, now: int)
    requires k < |rows| && Solo(rows[k]) in waiting && PriorityBase(rows[k].priority) == 3
    requires forall i | 0 <= i < |rows| && i != k :: PriorityBase(rows[i].priority) <= 2
    requires forall i | 0 <= i < |rows| :: AgingBonus(rows[i], st, now) == 0
    requires Elems(waiting) <= Elems(Solos(rows)) && Sorted(waiting, PromotedBefore(st, now))
    ensures waiting[0] == Solo(rows[k])
  {
    var less, high := PromotedBefore(st, now), Solo(rows[k]);
    forall x | x in waiting && x != high ensures less(high, x) {
      assert x in Elems(waiting);
      var i := SoloOf(rows, x);
    }
    SortedFirst(waiting, less, high);
  }

  lemma OthersAre(cap: nat, free: nat, e: Entry) returns (i: nat)
    requires e in Elems(Others(cap, free))
    ensures cap <= i < cap + free + 2 && e == Solo(CappedRows(cap, free)[i])
  {
    var rows := CappedRows(cap, free);
    i := SoloOf(rows[cap..], e);
    i := i + cap;
  }

  /** The capped rows, ranked, set the scene. */
  lemma CappedScene(cap: nat, free: nat, inc: seq<Entry>, waiting: seq<Entry>)
    requires cap > 0 && |inc| == cap && |waiting| == free + 2 && NoDup(waiting)
    requires Elems(inc) == Elems(Lows(cap, free)) && Elems(waiting) == Elems(Others(cap, free))
    requires waiting[0] == Solo(CappedRows(cap, free)[cap])
    ensures CapScene(inc, waiting, Limits(cap + free, cap), 1)
  {
    var rows := CappedRows(cap, free);
    forall i | 0 <= i < |inc| ensures inc[i].rep.userId == 1 && Incumbent(inc[i]) && Base(inc[i]) == 1 {
      assert inc[i] in Elems(inc);
      var j := SoloOf(rows[..cap], inc[i]);
      SoloIn(rows, j);
    }
    forall k | 0 <= k < |waiting|
      ensures !Incumbent(waiting[k]) && (k > 0 ==> waiting[k].rep.userId != 1 && Base(waiting[k]) == 2)
    {
      assert waiting[k] in Elems(waiting);
      var j := OthersAre(cap, free, waiting[k]);
      SoloIn(rows, j);
      assert k > 0 ==> waiting[k] != waiting[0];
    }
    forall k | 0 < k < |waiting| ensures UserCount(Elems(inc + waiting[1..k]), waiting[k].rep.userId) == 0 {
      NothingRunning(cap, free, inc, waiting, k);
    }
  }

  lemma NothingRunning(cap: nat, free: nat, inc: seq<Entry>, waiting: seq<Entry>, k: nat)
    requires 0 < k < |waiting| && NoDup(waiting) && Elems(waiting) == Elems(Others(cap, free))
    requires forall i | 0 <= i < |inc| :: inc[i].rep.userId == 1
    requires waiting[k].rep.userId != 1
    ensures UserCount(Elems(inc + waiting[1..k]), waiting[k].rep.userId) == 0
  {
    var rows, u := CappedRows(cap, free), waiting[k].rep.userId;
    forall j | 0 < j < k ensures waiting[j].rep.userId != u {
      assert waiting[j] in Elems(waiting) && waiting[k] in Elems(waiting) && waiting[j] != waiting[k];
      var a := OthersAre(cap, free, waiting[j]);
      var b := OthersAre(cap, free, waiting[k]);
    }
    assert OfUser(Elems(inc + waiting[1..k]), u) == {};
  }

  lemma CappedSorted(cap: nat, free: nat, st: Settings, now: int)
    ensures var rows := CappedRows(cap, free); var inc, waiting := SortedIncumbents(rows, st, now), SortedWaiting(rows, st, now);
            && Hashless(rows)
            && |inc| == cap && |waiting| == free + 2
            && Elems(inc) == Elems(Lows(cap, free)) && Elems(waiting) == Elems(Others(cap, free))
  {
    var rows := CappedRows(cap, free);
    CappedSelects(cap, free, st, now);
    SameElems(Lows(cap, free), SortedIncumbents(rows, st, now));
    SameElems(Others(cap, free), SortedWaiting(rows, st, now));
  }

  lemma CappedOrder(cap: nat, free: nat, waiting: seq<Entry>, st: Settings, now: int)
    requires Elems(waiting) == Elems(Others(cap, free)) && Sorted(waiting, PromotedBefore(st, now))
    ensures waiting != [] && waiting[0] == Solo(CappedRows(cap, free)[cap])
  {
    var rows := CappedRows(cap, free);
    SoloIn(rows[cap..], 0);
    OthersAmong(cap, free);
    assert Solo(rows[cap]) in Elems(waiting);
    HighFirst(rows, cap, waiting, st, now);
  }

  lemma CappedRanks(cap: nat, free: nat, st: Settings, now: int)
    ensures var rows := CappedRows(cap, free); var inc, waiting := SortedIncumbents(rows, st, now), SortedWaiting(rows, st, now);
            && Hashless(rows)
            && |inc| == cap && |waiting| == free + 2 && waiting[0] == Solo(rows[cap])
            && Elems(inc) == Elems(Lows(cap, free)) && Elems(waiting) == Elems(Others(cap, free))
  {
    CappedSorted(cap, free, st, now);
    PromotionSorts(CappedRows(cap, free), st, now);
    CappedOrder(cap, free, SortedWaiting(CappedRows(cap, free), st, now), st, now);
  }

  lemma OthersAmong(cap: nat, free: nat)
    ensures Elems(Others(cap, free)) <= Elems(Solos(CappedRows(cap, free)))
  {
    forall e | e in Elems(Others(cap, free)) ensures e in Elems(Solos(CappedRows(cap, free))) {
      var i := OthersAre(cap, free, e);
      SoloIn(CappedRows(cap, free), i);
    }
  }

  /** The first pass over the capped rows leaves the high row out and lets a normal one in. */
  lemma CappedPass(cap: nat, free: nat, st: Settings, now: int)
    requires cap > 0 && LimitsOf(st) == Limits(cap + free, cap)
    ensures var rows := CappedRows(cap, free); var chosen := Chosen(rows, st, now);
            && |chosen| == cap + free && Solo(rows[cap]) !in chosen
            && (exists e :: e in chosen && Base(e) == 2)
            && UserCount(Elems(chosen), 1) == cap - 1
  {
    var rows := CappedRows(cap, free);
    var inc, waiting := SortedIncumbents(rows, st, now), SortedWaiting(rows, st, now);
    CappedRanks(cap, free, st, now);
    SortedEntries(rows, st, now);
    CappedScene(cap, free, inc, waiting);
    RankedApart(inc, waiting);
    CapOutcome(inc, waiting, LimitsOf(st), 1);
    assert Base(waiting[|waiting| - 1]) == 2;
  }

  lemma RankedApart(inc: seq<Entry>, waiting: seq<Entry>)
    requires Ranked(inc, waiting)
    ensures Elems(inc) !! Elems(waiting)
  {
  }

  lemma HighLeftOut(cap: nat, free: nat, chosen: seq<Entry>, lim: Limits)
    requires Solo(CappedRows(cap, free)[cap]) !in chosen
    requires exists e :: e in chosen && Base(e) == 2
    requires Under(chosen, 1, lim)
    ensures !BestUnderCap(chosen, Elems(Solos(CappedRows(cap, free))), lim)
  {
    var high := Solo(CappedRows(cap, free)[cap]);
    SoloIn(CappedRows(cap, free), cap);
    var e :| e in chosen && Base(e) == 2;
    assert e in Elems(chosen) && Base(high) == 3;
  }

  /** A normal row holds a slot and a high row waits, although its user ends below the cap. */
  lemma CapInvertsTiers(st: Settings, now: int)
    requires !Slack(LimitsOf(st))
    ensures !Optimal(CappedRows(st.perUserMax, LimitsOf(st).maxActive - st.perUserMax), st, now)
    ensures !OptimalUnderCap(CappedRows(st.perUserMax, LimitsOf(st).maxActive - st.perUserMax), st, now)
  {
    var cap, free := st.perUserMax, LimitsOf(st).maxActive - st.perUserMax;
    var rows := CappedRows(cap, free);
    OptimalEitherWay(rows, st, now);
    CappedPass(cap, free, st, now);
    SoloEntries(rows, st, now);
    HighLeftOut(cap, free, Chosen(rows, st, now), LimitsOf(st));
  }

  lemma CappedAfter(cap: nat, free: nat, plan: set<int>, st: Settings, now: int)
    requires cap !in plan
    ensures Schedulable(CappedRows(cap, free))
    ensures var rows := AllLanded(CappedRows(cap, free), plan, now);
            && Hashless(rows) && rows[cap].status == Queued && rows[cap].userId == 1
            && PriorityBase(rows[cap].priority) == 3
            && (forall i | 0 <= i < |rows| && i != cap :: PriorityBase(rows[i].priority) <= 2)
            && (forall i | 0 <= i < |rows| :: AgingBonus(rows[i], st, now) == 0)
  {
  }

  /** The high row, its user now below the cap, gets in on the next pass. */
  lemma HighGetsIn(rows: seq<Download>, k: nat, st: Settings, now: int)
    requires Hashless(rows) && k < |rows| && rows[k].status == Queued && rows[k].userId == 1
    requires PriorityBase(rows[k].priority) == 3
    requires forall i | 0 <= i < |rows| && i != k :: PriorityBase(rows[i].priority) <= 2
    requires forall i | 0 <= i < |rows| :: AgingBonus(rows[i], st, now) == 0
    requires var inc, lim := SortedIncumbents(rows, st, now), LimitsOf(st);
             |inc| == lim.maxActive && WithinCap(Elems(inc), lim) && UserCount(Elems(inc), 1) < lim.perUserMax
    ensures Solo(rows[k]) in Chosen(rows, st, now)
  {
    var inc, waiting, lim, high := SortedIncumbents(rows, st, now), SortedWaiting(rows, st, now), LimitsOf(st), Solo(rows[k]);
    SoloEntries(rows, st, now);
    SoloIn(rows, k);
    SortedEntries(rows, st, now);
    PromotionSorts(rows, st, now);
    assert high in Elems(waiting);
    HighFirst(rows, k, waiting, st, now);
    SeatAll(inc, |inc|, lim);
    assert inc[..|inc|] == inc;
    assert inc[0] in Elems(inc);
    var i := SoloOf(rows, inc[0]);
    HeadGetsIn(inc, waiting, lim, inc[0]);
  }

  /** The plan is not a fixpoint: the next pass swaps the high row in. */
  lemma CapNeedsAnotherPass(st: Settings, now: int)
    requires !Slack(LimitsOf(st))
    ensures !Stable(CappedRows(st.perUserMax, LimitsOf(st).maxActive - st.perUserMax), st, now)
  {
    var cap, free, lim := st.perUserMax, LimitsOf(st).maxActive - st.perUserMax, LimitsOf(st);
    var rows := CappedRows(cap, free);
    var after := AllLanded(rows, Plan(rows, st, now), now);
    CappedRanks(cap, free, st, now);
    CappedPass(cap, free, st, now);
    SoloLeftOut(rows, st, now, cap);
    CappedAfter(cap, free, Plan(rows, st, now), st, now);
    LandedApplied(rows, Plan(rows, st, now), now);
    SlotsExactlyFilled(rows, st, now);
    IncumbentsCarriedOver(rows, st, now, after, now);
    forall u ensures UserCount(Elems(SortedIncumbents(after, st, now)), u) == UserCount(Elems(Chosen(rows, st, now)), u) {
      CountsCarriedOver(rows, st, now, after, now, u);
    }
    HighGetsIn(after, cap, st, now);
    Unsettled(rows, st, now, cap);
  }
}
