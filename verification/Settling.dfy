/** Under every setting: a running group yields only to a higher priority, so plans settle. */
module Settling {
  import opened Sorting
  import opened Ranking
  import opened SlotFiller
  import opened Scheduler
  import opened SlotCount
  import opened PlanLaws
  import opened SlotPasses

  // ---- One pass over groups that are within the limits ----

  /** Each running group keeps its place, or a waiting group of strictly higher base priority has taken it. */
  ghost predicate Matched(inc: seq<Entry>, r: seq<Entry>) {
    |inc| <= |r| && forall i | 0 <= i < |inc| :: r[i] == inc[i] || (!Incumbent(r[i]) && Base(r[i]) > Base(inc[i]))
  }

  lemma {:induction false} FillMatched(inc: seq<Entry>, waiting: seq<Entry>, lim: Limits)
    requires NoDup(inc) && |inc| <= lim.maxActive && WithinCap(Elems(inc), lim)
    requires forall w | w in waiting :: !Incumbent(w)
    ensures var r := Fill(inc, waiting, lim);
      Matched(inc, r) && forall i | |inc| <= i < |r| :: !Incumbent(r[i])
  {
    if waiting == [] {
      SeatAll(inc, |inc|, lim);
      assert inc[..|inc|] == inc;
    } else {
      var init, e := waiting[..|waiting| - 1], waiting[|waiting| - 1];
      assert forall w | w in init :: w in waiting;
      FillMatched(inc, init, lim);
    }
  }

  /** A pass over running groups within both limits drops one only for a waiting one of strictly higher base priority. */
  lemma RunningKept(items: seq<Download>, st: Settings, now: int)
    requires DistinctIds(items) && |SortedIncumbents(items, st, now)| <= LimitsOf(st).maxActive
    requires WithinCap(Elems(SortedIncumbents(items, st, now)), LimitsOf(st))
    ensures Matched(SortedIncumbents(items, st, now), Chosen(items, st, now))
  {
    var waiting := SortedWaiting(items, st, now);
    SortedEntries(items, st, now);
    forall w | w in waiting ensures !Incumbent(w) {
      assert w in Elems(waiting);
    }
    FillMatched(SortedIncumbents(items, st, now), waiting, LimitsOf(st));
  }

  /**
    * After any plan took effect, at any later instant: the next pass chooses as many groups as run, and each running
    * group it drops has lost its place to a waiting one of strictly higher base priority.
    */
  lemma NextPassMatched(items: seq<Download>, st: Settings, now: int, after: seq<Download>, later: int)
    requires DistinctIds(items) && Applied(items, Plan(items, st, now), after)
    ensures Matched(SortedIncumbents(after, st, later), Chosen(after, st, later))
    ensures |SortedIncumbents(after, st, later)| == |Chosen(after, st, later)|
    ensures IdsOf(SortedIncumbents(after, st, later)) == Plan(items, st, now)
  {
    var inc := SortedIncumbents(after, st, later);
    SlotsExactlyFilled(items, st, now);
    IncumbentsCarriedOver(items, st, now, after, later);
    IncumbentRowsCarriedOver(items, st, now, after, later);
    forall u ensures UserCount(Elems(inc), u) == UserCount(Elems(Chosen(items, st, now)), u) {
      CountsCarriedOver(items, st, now, after, later, u);
    }
    RunningKept(after, st, later);
    SameCount(items, st, now, after, later);
  }

  // ---- As many groups as before ----

  lemma SameUsers(items: seq<Download>, plan: set<int>, after: seq<Download>)
    requires AllCarried(items, after, plan)
    ensures Users(items) == Users(after)
  {
    forall u | u in Users(items) ensures u in Users(after) {
      var r :| r in items && r.userId == u;
      var s := Counterpart(items, after, plan, r);
    }
    forall u | u in Users(after) ensures u in Users(items) {
      var s :| s in after && s.userId == u;
      var r := Origin(items, after, plan, s);
    }
  }

  /** A user's groups are the same in number. */
  lemma GroupsCarriedOver(items: seq<Download>, st: Settings, now: int, after: seq<Download>, later: int, u: int)
    requires DistinctIds(items) && Applied(items, Plan(items, st, now), after)
    ensures UserCount(AllEntries(items, st, now), u) == UserCount(AllEntries(after, st, later), u)
  {
    var olds, news := OfUser(AllEntries(items, st, now), u), OfUser(AllEntries(after, st, later), u);
    forall k | k in KeySet(olds) ensures k in KeySet(news) {
      var e :| e in olds && e.group.key == k;
      var f := TwinOf(items, st, now, after, later, e);
      KeyFixesEntryUser(items, st, now, e, after, later, f);
    }
    forall k | k in KeySet(news) ensures k in KeySet(olds) {
      var f :| f in news && f.group.key == k;
      var e := TwinBack(items, st, now, after, later, f);
      KeyFixesEntryUser(items, st, now, e, after, later, f);
    }
    assert KeySet(olds) == KeySet(news);
    SameKeysSameSize(items, st, now, olds);
    SameKeysSameSize(after, st, later, news);
  }

  lemma SameCount(items: seq<Download>, st: Settings, now: int, after: seq<Download>, later: int)
    requires DistinctIds(items) && Applied(items, Plan(items, st, now), after)
    ensures |Chosen(after, st, later)| == |Chosen(items, st, now)|
  {
    var a, b, cap := AllEntries(items, st, now), AllEntries(after, st, later), LimitsOf(st).perUserMax;
    SlotsExactlyFilled(items, st, now);
    SlotsExactlyFilled(after, st, later);
    SameUsers(items, Plan(items, st, now), after);
    forall u ensures UserCount(a, u) == UserCount(b, u) {
      GroupsCarriedOver(items, st, now, after, later, u);
    }
    QuotasMonotone(Users(items), a, cap, b, cap);
    QuotasMonotone(Users(items), b, cap, a, cap);
  }

  // ---- Equal priorities never thrash ----

  ghost predicate OneTier(items: seq<Download>) {
    forall r, s | r in items && s in items :: PriorityBase(r.priority) == PriorityBase(s.priority)
  }

  /** Where all rows have one priority, every plan is stable, whatever the settings. */
  lemma OneTierStable(items: seq<Download>, st: Settings, now: int)
    requires DistinctIds(items) && OneTier(items)
    ensures Stable(items, st, now)
  {
    forall after, later | Applied(items, Plan(items, st, now), after)
      ensures Plan(after, st, later) == Plan(items, st, now)
    {
      NextPassMatched(items, st, now, after, later);
      OneTierCarried(items, Plan(items, st, now), after);
      OneTierKeeps(after, st, later);
    }
  }

  lemma OneTierKeeps(items: seq<Download>, st: Settings, now: int)
    requires DistinctIds(items) && OneTier(items)
    requires Matched(SortedIncumbents(items, st, now), Chosen(items, st, now))
    requires |SortedIncumbents(items, st, now)| == |Chosen(items, st, now)|
    ensures Chosen(items, st, now) == SortedIncumbents(items, st, now)
  {
    var inc, r := SortedIncumbents(items, st, now), Chosen(items, st, now);
    SortedEntries(items, st, now);
    ChosenAreEntries(items, st, now);
    forall i | 0 <= i < |inc| ensures Base(r[i]) == Base(inc[i]) {
      assert inc[i] in Elems(inc);
      OneBase(items, st, now, r[i], inc[i]);
    }
    MatchedEqual(inc, r);
  }

  lemma MatchedEqual(inc: seq<Entry>, r: seq<Entry>)
    requires Matched(inc, r) && |inc| == |r| && forall i | 0 <= i < |inc| :: Base(r[i]) == Base(inc[i])
    ensures r == inc
  {
  }

  lemma OneBase(items: seq<Download>, st: Settings, now: int, a: Entry, b: Entry)
    requires OneTier(items) && a in AllEntries(items, st, now) && b in AllEntries(items, st, now)
    ensures Base(a) == Base(b)
  {
    assert a.rep in a.group.members && b.rep in b.group.members;
  }

  lemma OneTierCarried(items: seq<Download>, plan: set<int>, after: seq<Download>)
    requires AllCarried(items, after, plan) && OneTier(items)
    ensures OneTier(after)
  {
    forall r, s | r in after && s in after ensures PriorityBase(r.priority) == PriorityBase(s.priority) {
      var a := Origin(items, after, plan, r);
      var b := Origin(items, after, plan, s);
    }
  }

  // ---- Repeated passes settle ----

  /** The sum of the base priorities, which are 1 to 3: one for each group, one more from normal, another from high. */
  ghost function Worth(s: set<Entry>): nat {
    |s| + |AtLeast(s, 2)| + |AtLeast(s, 3)|
  }

  ghost function AtLeast(s: set<Entry>, b: int): set<Entry> {
    set e | e in s && Base(e) >= b
  }

  function SumOf(s: seq<Entry>): int {
    if s == [] then 0 else SumOf(s[..|s| - 1]) + Base(s[|s| - 1])
  }

  lemma {:induction false} WorthIsSum(s: seq<Entry>)
    requires NoDup(s)
    ensures Worth(Elems(s)) == SumOf(s)
  {
    if s != [] {
      var init, e := s[..|s| - 1], s[|s| - 1];
      WorthIsSum(init);
      assert Elems(s) == Elems(init) + {e} && e !in Elems(init);
      WorthAdded(Elems(init), e);
    }
  }

  lemma WorthAdded(s: set<Entry>, e: Entry)
    requires e !in s
    ensures Worth(s + {e}) == Worth(s) + Base(e)
  {
    AtLeastAdded(s, e, 2);
    AtLeastAdded(s, e, 3);
  }

  lemma AtLeastAdded(s: set<Entry>, e: Entry, b: int)
    requires e !in s
    ensures |AtLeast(s + {e}, b)| == |AtLeast(s, b)| + if Base(e) >= b then 1 else 0
  {
    assert AtLeast(s + {e}, b) == AtLeast(s, b) + if Base(e) >= b then {e} else {};
  }

  lemma {:induction false} MatchedSum(inc: seq<Entry>, r: seq<Entry>)
    requires |inc| == |r| && Matched(inc, r)
    ensures SumOf(r) >= SumOf(inc) && (r != inc ==> SumOf(r) > SumOf(inc))
  {
    if inc != [] {
      MatchedSum(inc[..|inc| - 1], r[..|r| - 1]);
      assert r == r[..|r| - 1] + [r[|r| - 1]] && inc == inc[..|inc| - 1] + [inc[|inc| - 1]];
    }
  }

  lemma AtLeastCarriedOver(items: seq<Download>, st: Settings, now: int, after: seq<Download>, later: int, b: int)
    requires DistinctIds(items) && Applied(items, Plan(items, st, now), after)
    ensures |AtLeast(Elems(SortedIncumbents(after, st, later)), b)| == |AtLeast(Elems(Chosen(items, st, now)), b)|
  {
    var chosen := AtLeast(Elems(Chosen(items, st, now)), b);
    var inc := AtLeast(Elems(SortedIncumbents(after, st, later)), b);
    ChosenAreEntries(items, st, now);
    SortedEntries(after, st, later);
    forall k | k in KeySet(chosen) ensures k in KeySet(inc) {
      var e :| e in chosen && e.group.key == k;
      var f := TwinOf(items, st, now, after, later, e);
      assert f in inc;
    }
    forall k | k in KeySet(inc) ensures k in KeySet(chosen) {
      var f :| f in inc && f.group.key == k;
      var e := TwinBack(items, st, now, after, later, f);
      assert e in chosen;
    }
    assert KeySet(chosen) == KeySet(inc);
    SameKeysSameSize(items, st, now, chosen);
    SameKeysSameSize(after, st, later, inc);
  }

  ghost function PlanWorth(items: seq<Download>, st: Settings, now: int): nat {
    Worth(Elems(Chosen(items, st, now)))
  }

  /** A pass after an applied plan repeats it, or chooses groups that are worth more. */
  lemma NextWorthMore(items: seq<Download>, st: Settings, now: int, after: seq<Download>, later: int)
    requires DistinctIds(items) && Applied(items, Plan(items, st, now), after)
    ensures PlanWorth(after, st, later) >= PlanWorth(items, st, now)
    ensures Plan(after, st, later) != Plan(items, st, now) ==> PlanWorth(after, st, later) > PlanWorth(items, st, now)
  {
    var inc, r := SortedIncumbents(after, st, later), Chosen(after, st, later);
    NextPassMatched(items, st, now, after, later);
    AtLeastCarriedOver(items, st, now, after, later, 1);
    AtLeastCarriedOver(items, st, now, after, later, 2);
    AtLeastCarriedOver(items, st, now, after, later, 3);
    assert AtLeast(Elems(inc), 1) == Elems(inc);
    assert AtLeast(Elems(Chosen(items, st, now)), 1) == Elems(Chosen(items, st, now));
    SortedEntries(after, st, later);
    ChosenAreEntries(after, st, later);
    WorthIsSum(inc);
    WorthIsSum(r);
    MatchedSum(inc, r);
  }

  /** Tables on each of which the plan made at its instant took effect, nothing being added or finished meanwhile. */
  ghost predicate Passes(tables: seq<seq<Download>>, times: seq<int>, st: Settings) {
    && |tables| == |times| > 0
    && (forall k | 0 <= k < |tables| :: DistinctIds(tables[k]))
    && forall k | 0 < k < |tables| :: Applied(tables[k - 1], Plan(tables[k - 1], st, times[k - 1]), tables[k])
  }

  /** How many of the passes planned otherwise than the one before. */
  ghost function Changes(tables: seq<seq<Download>>, times: seq<int>, st: Settings): nat
    requires |tables| == |times|
  {
    if |tables| < 2 then 0
    else
      var k := |tables| - 1;
      Changes(tables[..k], times[..k], st)
        + if Plan(tables[k], st, times[k]) == Plan(tables[k - 1], st, times[k - 1]) then 0 else 1
  }

  lemma {:induction false} WorthGrows(tables: seq<seq<Download>>, times: seq<int>, st: Settings)
    requires Passes(tables, times, st)
    ensures var k := |tables| - 1;
      && |Chosen(tables[k], st, times[k])| == |Chosen(tables[0], st, times[0])|
      && PlanWorth(tables[k], st, times[k]) >= PlanWorth(tables[0], st, times[0]) + Changes(tables, times, st)
  {
    var k := |tables| - 1;
    if k > 0 {
      WorthGrows(tables[..k], times[..k], st);
      NextWorthMore(tables[k - 1], st, times[k - 1], tables[k], times[k]);
      SameCount(tables[k - 1], st, times[k - 1], tables[k], times[k]);
    }
  }

  lemma WorthBounds(items: seq<Download>, st: Settings, now: int)
    requires DistinctIds(items)
    ensures |Chosen(items, st, now)| <= PlanWorth(items, st, now) <= 3 * |Chosen(items, st, now)|
    ensures |Chosen(items, st, now)| <= if st.maxActive > 0 then st.maxActive else 3
  {
    var s := Elems(Chosen(items, st, now));
    SlotsExactlyFilled(items, st, now);
    ElemsCardinality(Chosen(items, st, now));
    SubsetCount(AtLeast(s, 2), s);
    SubsetCount(AtLeast(s, 3), s);
  }

  /** Under every setting, however long plans are made and take effect, they change at most twice per slot. */
  lemma PlansSettle(tables: seq<seq<Download>>, times: seq<int>, st: Settings)
    requires Passes(tables, times, st)
    ensures Changes(tables, times, st) <= 2 * if st.maxActive > 0 then st.maxActive else 3
  {
    var k := |tables| - 1;
    WorthGrows(tables, times, st);
    WorthBounds(tables[0], st, times[0]);
    WorthBounds(tables[k], st, times[k]);
  }
}
