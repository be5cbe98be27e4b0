/** Which of the waiting groups get in, when no cap binds. */
module WaitingOrder {
  import opened Sorting
  import opened Ranking
  import opened SlotFiller
  import opened Scheduler
  import opened SlotCount
  import opened PlanLaws
  import opened SlotPasses

  /** A waiting group left out found the slots full of groups that it could not preempt. */
  ghost predicate Closed(active: seq<Entry>, u: Entry, lim: Limits) {
    !Room(active, lim) && forall a | a in active && Incumbent(a) :: Base(u) <= Base(a)
  }

  lemma ClosedStays(active: seq<Entry>, e: Entry, lim: Limits, u: Entry)
    requires Closed(active, u, lim) && !Incumbent(e)
    ensures Closed(Preempt(active, e, lim), u, lim)
  {
  }

  lemma ClosedToIt(active: seq<Entry>, e: Entry, lim: Limits)
    requires !Room(active, lim) && Under(active, e.rep.userId, lim) && e !in Preempt(active, e, lim)
    ensures Closed(active, e, lim) && Preempt(active, e, lim) == active
  {
    SwapPutsIn(active, e, lim);
  }

  lemma SwapPutsIn(active: seq<Entry>, e: Entry, lim: Limits)
    ensures Preempt(active, e, lim) == active || e in Preempt(active, e, lim)
  {
    if Preempt(active, e, lim) != active {
      assert Preempt(active, e, lim)[WeakestIncumbent(active)] == e;
    }
  }

  lemma {:induction false} LeftOutIsClosed(inc: seq<Entry>, waiting: seq<Entry>, lim: Limits, u: Entry)
    requires NoDup(inc) && NoDup(waiting) && Elems(inc) !! Elems(waiting) && Slack(lim) && lim.maxActive > 0
    requires forall w | w in waiting :: !Incumbent(w)
    requires u in waiting && u !in Fill(inc, waiting, lim)
    ensures Closed(Fill(inc, waiting, lim), u, lim)
  {
    var n := |waiting| - 1;
    var init, e := waiting[..n], waiting[n];
    var active := Fill(inc, init, lim);
    assert waiting == init + [e] && Elems(init) <= Elems(waiting);
    FillPacked(inc, init, lim);
    SlackAdmits(active, e.rep.userId, lim);
    if u == e {
      ClosedToIt(active, e, lim);
    } else {
      if u in active {
        AdmittedStays(inc, waiting, lim, n, u);
      }
      LeftOutIsClosed(inc, init, lim, u);
      ClosedStays(active, e, lim, u);
    }
  }

  /** A group gets in when its turn comes, or not at all. */
  lemma {:induction false} EntersInTurn(inc: seq<Entry>, waiting: seq<Entry>, lim: Limits, j: nat)
    requires NoDup(waiting) && Elems(inc) !! Elems(waiting) && j < |waiting| && waiting[j] in Fill(inc, waiting, lim)
    ensures waiting[j] in Fill(inc, waiting[..j + 1], lim) && waiting[j] !in Fill(inc, waiting[..j], lim)
  {
    var c := waiting[j];
    if j == |waiting| - 1 {
      assert waiting[..j + 1] == waiting;
      FillFrom(inc, waiting[..j], lim);
      assert c in Elems(waiting);
    } else {
      var init := waiting[..|waiting| - 1];
      assert waiting[|waiting| - 1] != c && Elems(init) <= Elems(waiting);
      EntersInTurn(inc, init, lim, j);
      assert init[..j + 1] == waiting[..j + 1] && init[..j] == waiting[..j];
    }
  }

  /** So of two waiting groups, one that gets in comes before one left out of at least its base priority. */
  lemma ChosenBefore(inc: seq<Entry>, waiting: seq<Entry>, lim: Limits, i: nat, j: nat)
    requires NoDup(inc) && NoDup(waiting) && Elems(inc) !! Elems(waiting) && Slack(lim) && lim.maxActive > 0
    requires forall w | w in waiting :: !Incumbent(w)
    requires i < |waiting| && j < |waiting|
    requires waiting[i] !in Fill(inc, waiting, lim) && waiting[j] in Fill(inc, waiting, lim)
    requires Base(waiting[i]) >= Base(waiting[j]) || inc == []
    ensures j < i
  {
    if i < j {
      EntersInTurn(inc, waiting, lim, j);
      LaterKeptOut(inc, waiting, lim, i, j);
    }
  }

  lemma LaterKeptOut(inc: seq<Entry>, waiting: seq<Entry>, lim: Limits, i: nat, j: nat)
    requires NoDup(inc) && NoDup(waiting) && Elems(inc) !! Elems(waiting) && Slack(lim) && lim.maxActive > 0
    requires forall w | w in waiting :: !Incumbent(w)
    requires i < j < |waiting| && waiting[i] !in Fill(inc, waiting, lim)
    requires waiting[j] !in Fill(inc, waiting[..j], lim)
    requires Base(waiting[i]) >= Base(waiting[j]) || inc == []
    ensures waiting[j] !in Fill(inc, waiting[..j + 1], lim)
  {
    var u, before := waiting[i], waiting[..j];
    PrefixOf(inc, waiting, i, j);
    StillOut(inc, waiting, lim, j, u);
    LeftOutIsClosed(inc, before, lim, u);
    if inc == [] {
      NothingRuns(before, lim);
    }
    KeptOut(Fill(inc, before, lim), waiting[j], lim, u);
    TurnOf(inc, waiting, lim, j);
  }

  lemma TurnOf(inc: seq<Entry>, waiting: seq<Entry>, lim: Limits, j: nat)
    requires j < |waiting| && !Room(Fill(inc, waiting[..j], lim), lim)
    ensures Fill(inc, waiting[..j + 1], lim) == Preempt(Fill(inc, waiting[..j], lim), waiting[j], lim)
  {
    assert waiting[..j + 1][..j] == waiting[..j];
  }

  /** A waiting group left out at the end was left out before. */
  lemma StillOut(inc: seq<Entry>, waiting: seq<Entry>, lim: Limits, j: nat, u: Entry)
    requires j <= |waiting| && !Incumbent(u) && u !in Fill(inc, waiting, lim)
    ensures u !in Fill(inc, waiting[..j], lim)
  {
    if u in Fill(inc, waiting[..j], lim) {
      AdmittedStays(inc, waiting, lim, j, u);
    }
  }

  lemma PrefixOf(inc: seq<Entry>, waiting: seq<Entry>, i: nat, j: nat)
    requires NoDup(waiting) && Elems(inc) !! Elems(waiting) && (forall w | w in waiting :: !Incumbent(w)) && i < j <= |waiting|
    ensures NoDup(waiting[..j]) && Elems(inc) !! Elems(waiting[..j]) && forall w | w in waiting[..j] :: !Incumbent(w)
    ensures waiting[i] in waiting[..j] && !Incumbent(waiting[i])
  {
    assert waiting[..j][i] == waiting[i];
    assert Elems(waiting[..j]) <= Elems(waiting);
  }

  lemma NothingRuns(waiting: seq<Entry>, lim: Limits)
    requires forall w | w in waiting :: !Incumbent(w)
    ensures forall a | a in Fill([], waiting, lim) :: !Incumbent(a)
  {
    FillFrom([], waiting, lim);
  }

  /** Where one group is left out, one of no higher base priority stays out. */
  lemma KeptOut(active: seq<Entry>, c: Entry, lim: Limits, u: Entry)
    requires Closed(active, u, lim) && c !in active
    requires Base(c) <= Base(u) || forall a | a in active :: !Incumbent(a)
    ensures Preempt(active, c, lim) == active
  {
  }

  /**
    * Free slots go to the best waiting groups: with a cap that cannot bind, no waiting group left out beats one that
    * got in, of no higher base priority, on score, then stalls, then waiting time, then id; and none at all when
    * nothing was running.
    */
  lemma WaitersInOrder(items: seq<Download>, st: Settings, now: int, c: Entry, u: Entry)
    requires DistinctIds(items) && Slack(LimitsOf(st))
    requires c in AllEntries(items, st, now) && !Incumbent(c) && c in Chosen(items, st, now)
    requires u in AllEntries(items, st, now) && !Incumbent(u) && u !in Chosen(items, st, now)
    requires Base(u) >= Base(c) || forall e | e in AllEntries(items, st, now) :: !Incumbent(e)
    ensures InOrder(c.rep, u.rep, st, now)
  {
    var inc, waiting := SortedIncumbents(items, st, now), SortedWaiting(items, st, now);
    SortedEntries(items, st, now);
    PromotionSorts(items, st, now);
    assert c in Elems(waiting) && u in Elems(waiting);
    assert forall e | e in waiting :: e in Elems(waiting);
    assert inc != [] ==> inc[0] in Elems(inc);
    var i :| 0 <= i < |waiting| && waiting[i] == u;
    var j :| 0 <= j < |waiting| && waiting[j] == c;
    ChosenBefore(inc, waiting, LimitsOf(st), i, j);
    assert !PromotedBefore(st, now)(waiting[i], waiting[j]);
    NotLessMeans(u.rep, c.rep, st, now);
  }
}
