/** Optimality and stability of the plan. */
module PlanLaws {
  import opened Options
  import opened Quantities
  import opened Sorting
  import opened Ranking
  import opened Grouping
  import opened SlotFiller
  import opened Scheduler
  import opened SlotCount

  /** The per-user cap can never bind: it is off, or above the global ceiling. */
  predicate Slack(lim: Limits) {
    lim.perUserMax <= 0 || lim.maxActive < lim.perUserMax
  }

  /** Aging can never lift a row into the next priority tier. */
  predicate AgingWithinTier(st: Settings) {
    st.agingStepMin <= 0 || st.agingCap < 1000
  }

  predicate GoodSettings(st: Settings) {
    Slack(LimitsOf(st)) && AgingWithinTier(st)
  }

  ghost predicate ByTier(s: seq<Entry>) {
    forall i, j | 0 <= i < j < |s| :: Base(s[i]) >= Base(s[j])
  }

  /** No group left out outranks a chosen one, and every dropped incumbent is below every admitted waiter. */
  ghost predicate Best(active: set<Entry>, all: set<Entry>) {
    && (forall a, u | a in active && u in all && u !in active :: Base(a) >= Base(u))
    && (forall d, w | d in all && d !in active && Incumbent(d) && w in active && !Incumbent(w) :: Base(d) < Base(w))
  }

  // ---- The passes over ranked groups ----

  lemma SlackAdmits(active: seq<Entry>, u: int, lim: Limits)
    requires Slack(lim) && NoDup(active) && |active| <= lim.maxActive
    ensures Under(active, u, lim)
  {
    ElemsCardinality(active);
    SubsetCount(OfUser(Elems(active), u), Elems(active));
  }

  lemma {:induction false} SeatIsPrefix(inc: seq<Entry>, lim: Limits)
    requires NoDup(inc) && Slack(lim) && lim.maxActive > 0
    ensures Seat(inc, lim) == inc[..Min(lim.maxActive, |inc|)]
  {
    if inc != [] {
      var init := inc[..|inc| - 1];
      SeatIsPrefix(init, lim);
      SlackAdmits(Seat(init, lim), inc[|inc| - 1].rep.userId, lim);
    }
  }

  /** While a slot is free, nothing considered so far is left out. */
  ghost predicate Packed(active: seq<Entry>, all: set<Entry>, lim: Limits) {
    NoDup(active) && Elems(active) <= all && |active| <= lim.maxActive && (Room(active, lim) ==> all <= Elems(active))
  }

  /** Considering the next waiting group, no stronger than those before it. */
  lemma BestStep(active: seq<Entry>, all: set<Entry>, e: Entry, lim: Limits)
    requires Slack(lim) && lim.maxActive > 0 && e !in all && !Incumbent(e)
    requires Packed(active, all, lim) && Best(Elems(active), all)
    requires forall w | w in all && !Incumbent(w) :: Base(w) >= Base(e)
    ensures var next := if Room(active, lim) && Under(active, e.rep.userId, lim) then active + [e] else Preempt(active, e, lim);
            Packed(next, all + {e}, lim) && Best(Elems(next), all + {e})
  {
    SlackAdmits(active, e.rep.userId, lim);
    if Room(active, lim) {
      assert Elems(active + [e]) == Elems(active) + {e};
    } else if Preempt(active, e, lim) != active {
      BestSwap(active, all, e, WeakestIncumbent(active), lim);
    } else {
      assert forall a | a in Elems(active) && Incumbent(a) :: a in active && Base(e) <= Base(a);
    }
  }

  /** The weakest incumbent gives way to a stronger group. */
  lemma BestSwap(active: seq<Entry>, all: set<Entry>, e: Entry, w: nat, lim: Limits)
    requires e !in all && !Incumbent(e) && w < |active| && Incumbent(active[w]) && Base(active[w]) < Base(e)
    requires Packed(active, all, lim) && !Room(active, lim) && Best(Elems(active), all)
    requires forall a | a in active && Incumbent(a) :: Base(active[w]) <= Base(a)
    requires forall x | x in all && !Incumbent(x) :: Base(x) >= Base(e)
    ensures Packed(active[w := e], all + {e}, lim) && Best(Elems(active[w := e]), all + {e})
  {
    ElemsOfUpdate(active, w, e);
    assert forall a | a in Elems(active) :: a in active;
    assert active[w] in Elems(active);
  }

  lemma SeatBest(inc: seq<Entry>, lim: Limits)
    requires NoDup(inc) && ByTier(inc) && Slack(lim) && lim.maxActive > 0
    requires forall e | e in Elems(inc) :: Incumbent(e)
    ensures Packed(Seat(inc, lim), Elems(inc), lim)
    ensures Best(Elems(Seat(inc, lim)), Elems(inc))
  {
    SeatIsPrefix(inc, lim);
    var n := Min(lim.maxActive, |inc|);
    forall a, u | a in inc[..n] && u in inc && u !in inc[..n] ensures Base(a) >= Base(u) {
      var i, j :| 0 <= i < n && inc[i] == a && 0 <= j < |inc| && inc[j] == u;
      assert forall k | 0 <= k < n :: inc[k] in inc[..n];
    }
    assert n == |inc| ==> inc[..n] == inc;
  }

  /** Duplicate-free incumbents and waiting groups, each by tier. */
  ghost predicate Lineup(inc: seq<Entry>, waiting: seq<Entry>) {
    && NoDup(inc) && NoDup(waiting) && ByTier(inc) && ByTier(waiting)
    && (forall e | e in Elems(inc) :: Incumbent(e))
    && (forall e | e in Elems(waiting) :: !Incumbent(e))
  }

  /** The last of a line-up is new and ranks no higher than the waiting groups before it. */
  lemma LineupLast(inc: seq<Entry>, waiting: seq<Entry>)
    requires Lineup(inc, waiting) && waiting != []
    ensures var init, e := waiting[..|waiting| - 1], waiting[|waiting| - 1]; var all := Elems(inc) + Elems(init);
            && Lineup(inc, init) && e !in all && !Incumbent(e)
            && all + {e} == Elems(inc) + Elems(waiting)
            && forall w | w in all && !Incumbent(w) :: Base(w) >= Base(e)
  {
    var n := |waiting| - 1;
    var init, e := waiting[..n], waiting[n];
    assert Elems(waiting) == Elems(init) + {e};
    forall w | w in init ensures w != e && Base(w) >= Base(e) {
      var i :| 0 <= i < n && init[i] == w;
      assert waiting[i] == w;
    }
  }

  lemma {:induction false} FillBest(inc: seq<Entry>, waiting: seq<Entry>, lim: Limits)
    requires Lineup(inc, waiting) && Slack(lim) && lim.maxActive > 0
    ensures Packed(Fill(inc, waiting, lim), Elems(inc) + Elems(waiting), lim)
    ensures Best(Elems(Fill(inc, waiting, lim)), Elems(inc) + Elems(waiting))
  {
    if waiting == [] {
      SeatBest(inc, lim);
      assert Elems(inc) + Elems(waiting) == Elems(inc);
    } else {
      var init, e := waiting[..|waiting| - 1], waiting[|waiting| - 1];
      LineupLast(inc, waiting);
      FillBest(inc, init, lim);
      BestStep(Fill(inc, init, lim), Elems(inc) + Elems(init), e, lim);
    }
  }

  /** When the incumbents fill the slots and nothing waiting outranks them, the pass changes nothing. */
  lemma {:induction false} FillSettled(inc: seq<Entry>, waiting: seq<Entry>, lim: Limits)
    requires NoDup(inc) && Slack(lim) && lim.maxActive > 0
    requires |inc| <= lim.maxActive && (waiting != [] ==> |inc| == lim.maxActive)
    requires forall i, w | i in inc && w in waiting :: Base(w) <= Base(i)
    ensures Fill(inc, waiting, lim) == inc
  {
    if waiting == [] {
      SeatIsPrefix(inc, lim);
    } else {
      var init, e := waiting[..|waiting| - 1], waiting[|waiting| - 1];
      FillSettled(inc, init, lim);
    }
  }

  // ---- The same over rows ----

  lemma SortedByTier(items: seq<Download>, st: Settings, now: int)
    ensures ByTier(SortedIncumbents(items, st, now))
    ensures AgingWithinTier(st) ==> ByTier(SortedWaiting(items, st, now))
  {
    var es := Entries(items, st, now);
    SortSorted(Select(es, true), HigherBase);
    PromotionSorts(items, st, now);
    var s := SortedWaiting(items, st, now);
    if AgingWithinTier(st) {
      forall i, j | 0 <= i < j < |s| ensures Base(s[i]) >= Base(s[j]) {
        assert !PromotedBefore(st, now)(s[j], s[i]);
        PromotionRespectsTiers(s[i].rep, s[j].rep, st, now);
      }
    }
  }

  lemma PromotionSorts(items: seq<Download>, st: Settings, now: int)
    ensures Sorted(SortedWaiting(items, st, now), PromotedBefore(st, now))
  {
    var waiting, less := Select(Entries(items, st, now), false), PromotedBefore(st, now);
    forall a, b, c | !less(a, b) && !less(b, c) ensures !less(a, c) {
      NotLessTransitive(a.rep, b.rep, c.rep, st, now);
    }
    SortSorted(waiting, less);
  }

  lemma NotLessTransitive(a: Download, b: Download, c: Download, st: Settings, now: int)
    requires !PromotionLess(a, b, st, now) && !PromotionLess(b, c, st, now)
    ensures !PromotionLess(a, c, st, now)
  {
  }

  /** Every chosen group ranks at least with every group left out, and no incumbent was dropped for an equal. */
  ghost predicate Optimal(items: seq<Download>, st: Settings, now: int) {
    Best(Elems(Chosen(items, st, now)), AllEntries(items, st, now))
  }

  /**
    * The same, but for groups of users that are at their cap: a group left out outranks no chosen one, and no
    * incumbent was dropped for an equal, unless its user has as many groups chosen as the cap allows.
    */
  ghost predicate OptimalUnderCap(items: seq<Download>, st: Settings, now: int) {
    BestUnderCap(Chosen(items, st, now), AllEntries(items, st, now), LimitsOf(st))
  }

  ghost predicate BestUnderCap(active: seq<Entry>, all: set<Entry>, lim: Limits) {
    && (forall a, u | a in active && u in all && u !in active && Under(active, u.rep.userId, lim) :: Base(a) >= Base(u))
    && (forall d, w | d in all && d !in active && Incumbent(d) && Under(active, d.rep.userId, lim)
                      && w in active && !Incumbent(w) :: Base(d) < Base(w))
  }

  lemma OptimalEitherWay(items: seq<Download>, st: Settings, now: int)
    ensures Optimal(items, st, now) ==> OptimalUnderCap(items, st, now)
  {
    var s := Chosen(items, st, now);
    assert forall e :: e in s <==> e in Elems(s);
  }

  lemma GoodSettingsChooseBest(items: seq<Download>, st: Settings, now: int)
    requires DistinctIds(items) && GoodSettings(st)
    ensures Packed(Chosen(items, st, now), AllEntries(items, st, now), LimitsOf(st))
    ensures Optimal(items, st, now)
  {
    SortedEntries(items, st, now);
    SortedByTier(items, st, now);
    FillBest(SortedIncumbents(items, st, now), SortedWaiting(items, st, now), LimitsOf(st));
  }

  // ---- Applying the plan and planning again ----

  ghost predicate SameRow(r: Download, s: Download) {
    r.id == s.id && r.userId == s.userId && r.infoHash == s.infoHash && r.priority == s.priority
  }

  /** `s` is `r` after the plan took effect; waiting times and stall counts may have changed as well. */
  ghost predicate Carried(r: Download, s: Download, plan: set<int>) {
    SameRow(r, s) && s.status == if r.id in plan then Downloading else Queued
  }

  /** The row itself once its batch went through: a preempted row's waiting time starts at `at`. */
  function Landed(r: Download, plan: set<int>, at: int): Download {
    if r.id in plan && r.status == Queued then r.(status := Downloading)
    else if r.id !in plan && r.status == Downloading then r.(status := Queued, queuedSince := Some(at))
    else r
  }

  function RowIds(rows: seq<Download>): set<int> {
    set r | r in rows :: r.id
  }

  /** The rows of `after` are those of `before`, in any order, each carried over. */
  ghost predicate AllCarried(before: seq<Download>, after: seq<Download>, plan: set<int>) {
    && RowIds(before) == RowIds(after)
    && forall r, s | r in before && s in after && r.id == s.id :: Carried(r, s, plan)
  }

  /** The table once planned rows were promoted and the others put back in the queue. */
  ghost predicate Applied(before: seq<Download>, plan: set<int>, after: seq<Download>) {
    DistinctIds(after) && AllCarried(before, after, plan)
  }

  predicate Schedulable(items: seq<Download>) {
    forall r <- items :: r.status == Queued || r.status == Downloading
  }

  /** The rows once every batch went through, nothing else having changed. */
  function AllLanded(items: seq<Download>, plan: set<int>, at: int): (after: seq<Download>)
    ensures |after| == |items|
    ensures forall i | 0 <= i < |items| :: after[i] == Landed(items[i], plan, at)
  {
    seq(|items|, i requires 0 <= i < |items| => Landed(items[i], plan, at))
  }

  lemma LandedApplied(items: seq<Download>, plan: set<int>, at: int)
    requires DistinctIds(items) && Schedulable(items)
    ensures Applied(items, plan, AllLanded(items, plan, at))
  {
    var after := AllLanded(items, plan, at);
    LandedIds(items, plan, at);
    forall r, s | r in items && s in after && r.id == s.id ensures Carried(r, s, plan) {
      var j :| 0 <= j < |after| && after[j] == s;
      assert items[j] in items;
      SameIdSameRow(items, r, items[j]);
      LandedCarried(r, plan, at);
    }
  }

  lemma LandedCarried(r: Download, plan: set<int>, at: int)
    requires r.status == Queued || r.status == Downloading
    ensures Carried(r, Landed(r, plan, at), plan)
  {
  }

  lemma LandedIds(items: seq<Download>, plan: set<int>, at: int)
    ensures RowIds(AllLanded(items, plan, at)) == RowIds(items)
  {
    var after := AllLanded(items, plan, at);
    forall id | id in RowIds(items) ensures id in RowIds(after) {
      var i :| 0 <= i < |items| && items[i].id == id;
      assert after[i].id == id && after[i] in after;
    }
    forall id | id in RowIds(after) ensures id in RowIds(items) {
      var i :| 0 <= i < |after| && after[i].id == id;
      assert items[i].id == id && items[i] in items;
    }
  }

  /** Planning again after the plan took effect, at any instant, chooses the same rows. */
  ghost predicate Stable(items: seq<Download>, st: Settings, now: int) {
    forall after, later | Applied(items, Plan(items, st, now), after) :: Plan(after, st, later) == Plan(items, st, now)
  }

  lemma Counterpart(ms: seq<Download>, ns: seq<Download>, plan: set<int>, r: Download) returns (s: Download)
    requires AllCarried(ms, ns, plan) && r in ms
    ensures s in ns && Carried(r, s, plan)
  {
    assert r.id in RowIds(ns);
    s :| s in ns && s.id == r.id;
  }

  lemma Origin(ms: seq<Download>, ns: seq<Download>, plan: set<int>, s: Download) returns (r: Download)
    requires AllCarried(ms, ns, plan) && s in ns
    ensures r in ms && Carried(r, s, plan)
  {
    assert s.id in RowIds(ms);
    r :| r in ms && r.id == s.id;
  }

  lemma CarriedRank(ms: seq<Download>, ns: seq<Download>, plan: set<int>, st: Settings, now: int, later: int)
    requires AllCarried(ms, ns, plan) && |ms| > 0 && |ns| > 0
    ensures PriorityBase(RepresentativeOf(ms, st, now).priority) == PriorityBase(RepresentativeOf(ns, st, later).priority)
  {
    var s := Counterpart(ms, ns, plan, RepresentativeOf(ms, st, now));
    var r := Origin(ms, ns, plan, RepresentativeOf(ns, st, later));
  }

  lemma CarriedRunning(ms: seq<Download>, ns: seq<Download>, plan: set<int>)
    requires AllCarried(ms, ns, plan) && |ms| > 0
    requires RowIds(ms) <= plan || RowIds(ms) !! plan
    ensures AnyDownloading(ns) <==> ms[0].id in plan
  {
    assert ms[0].id in RowIds(ms);
    var s0 := Counterpart(ms, ns, plan, ms[0]);
    forall s | s in ns ensures s.status == Downloading <==> ms[0].id in plan {
      assert s.id in RowIds(ms);
      var r := Origin(ms, ns, plan, s);
    }
  }

  /** `f` is the group `e` after the plan: same rows, same rank, running exactly when `e` was chosen. */
  ghost predicate Twins(e: Entry, f: Entry, chosen: set<Entry>) {
    e.group.key == f.group.key && Ids(e) == Ids(f) && Base(e) == Base(f) && (Incumbent(f) <==> e in chosen)
  }

  lemma MembersCarried(items: seq<Download>, plan: set<int>, after: seq<Download>, k: string)
    requires AllCarried(items, after, plan)
    ensures AllCarried(MembersOf(items, k), MembersOf(after, k), plan)
  {
    var ms, ns := MembersOf(items, k), MembersOf(after, k);
    forall id | id in RowIds(ms) ensures id in RowIds(ns) {
      var r :| r in ms && r.id == id;
      var s := Counterpart(items, after, plan, r);
      assert s in ns;
    }
    forall id | id in RowIds(ns) ensures id in RowIds(ms) {
      var s :| s in ns && s.id == id;
      var r := Origin(items, after, plan, s);
      assert r in ms;
    }
  }

  lemma KeysCarried(items: seq<Download>, plan: set<int>, after: seq<Download>, k: string)
    requires AllCarried(items, after, plan)
    ensures k in Keys(items) <==> k in Keys(after)
  {
    MembersCarried(items, plan, after, k);
    KeysExact(items, k);
    KeysExact(after, k);
    var ms, ns := MembersOf(items, k), MembersOf(after, k);
    if ms != [] {
      var s := Counterpart(ms, ns, plan, ms[0]);
    }
    if ns != [] {
      var r := Origin(ms, ns, plan, ns[0]);
    }
  }

  /** The entry of key `k`. */
  ghost function At(items: seq<Download>, st: Settings, now: int, k: string): (e: Entry)
    requires k in Keys(items)
    ensures e == EntryFor(GroupFor(items, k), st, now)
    ensures e in AllEntries(items, st, now)
  {
    var i :| 0 <= i < |Keys(items)| && Keys(items)[i] == k;
    Entries(items, st, now)[i]
  }

  lemma TwinsAt(items: seq<Download>, st: Settings, now: int, after: seq<Download>, later: int, k: string)
    requires DistinctIds(items) && Applied(items, Plan(items, st, now), after)
    requires k in Keys(items) && k in Keys(after)
    ensures Twins(At(items, st, now, k), At(after, st, later, k), Elems(Chosen(items, st, now)))
  {
    var plan, e := Plan(items, st, now), At(items, st, now, k);
    var ms, ns := MembersOf(items, k), MembersOf(after, k);
    MembersCarried(items, plan, after, k);
    PlanIsGroupAtomic(items, st, now, e);
    assert Ids(e) == RowIds(ms) && Ids(At(after, st, later, k)) == RowIds(ns);
    assert ms[0].id in RowIds(ms);
    CarriedRank(ms, ns, plan, st, now, later);
    CarriedRunning(ms, ns, plan);
  }

  /** A chosen group runs in the next pass. */
  lemma ChosenRunsNext(items: seq<Download>, st: Settings, now: int, after: seq<Download>, later: int, e: Entry)
    returns (f: Entry)
    requires DistinctIds(items) && Applied(items, Plan(items, st, now), after)
    requires e in Chosen(items, st, now)
    ensures f in SortedIncumbents(after, st, later) && f.group.key == e.group.key && Ids(f) == Ids(e)
  {
    SlotsExactlyFilled(items, st, now);
    assert e in Elems(Chosen(items, st, now));
    f := TwinOf(items, st, now, after, later, e);
    SortedEntries(after, st, later);
    assert f in Elems(SortedIncumbents(after, st, later));
  }

  /** Only chosen groups run in the next pass. */
  lemma RunningWasChosen(items: seq<Download>, st: Settings, now: int, after: seq<Download>, later: int, f: Entry)
    returns (e: Entry)
    requires DistinctIds(items) && Applied(items, Plan(items, st, now), after)
    requires f in SortedIncumbents(after, st, later)
    ensures e in Chosen(items, st, now) && f.group.key == e.group.key && Ids(f) == Ids(e)
  {
    SortedEntries(after, st, later);
    assert f in Elems(SortedIncumbents(after, st, later));
    e := TwinBack(items, st, now, after, later, f);
  }

  /** The running groups of the next pass own exactly the planned rows. */
  lemma IncumbentRowsCarriedOver(items: seq<Download>, st: Settings, now: int, after: seq<Download>, later: int)
    requires DistinctIds(items) && Applied(items, Plan(items, st, now), after)
    ensures IdsOf(SortedIncumbents(after, st, later)) == Plan(items, st, now)
  {
    var chosen, inc := Chosen(items, st, now), SortedIncumbents(after, st, later);
    forall id | id in IdsOf(chosen) ensures id in IdsOf(inc) {
      var e, m :| e in chosen && m in e.group.members && m.id == id;
      var f := ChosenRunsNext(items, st, now, after, later, e);
      assert id in Ids(e);
    }
    forall id | id in IdsOf(inc) ensures id in IdsOf(chosen) {
      var f, m :| f in inc && m in f.group.members && m.id == id;
      var e := RunningWasChosen(items, st, now, after, later, f);
      assert id in Ids(f);
    }
  }

  lemma KeyFixesEntryUser(items: seq<Download>, st: Settings, now: int, e: Entry,
                          after: seq<Download>, later: int, f: Entry)
    requires e in AllEntries(items, st, now) && f in AllEntries(after, st, later) && e.group.key == f.group.key
    ensures e.rep.userId == f.rep.userId
  {
    EntryIsItsKey(items, st, now, e);
    EntryIsItsKey(after, st, later, f);
    KeyFixesUser(e.rep, f.rep);
  }

  /** Each user has as many running groups in the next pass as were chosen. */
  lemma CountsCarriedOver(items: seq<Download>, st: Settings, now: int, after: seq<Download>, later: int, u: int)
    requires DistinctIds(items) && Applied(items, Plan(items, st, now), after)
    ensures UserCount(Elems(SortedIncumbents(after, st, later)), u) == UserCount(Elems(Chosen(items, st, now)), u)
  {
    var chosen, inc := OfUser(Elems(Chosen(items, st, now)), u), OfUser(Elems(SortedIncumbents(after, st, later)), u);
    ChosenAreEntries(items, st, now);
    SortedEntries(after, st, later);
    forall k | k in KeySet(chosen) ensures k in KeySet(inc) {
      var e :| e in chosen && e.group.key == k;
      var f := ChosenRunsNext(items, st, now, after, later, e);
      assert f in Elems(SortedIncumbents(after, st, later));
      KeyFixesEntryUser(items, st, now, e, after, later, f);
    }
    forall k | k in KeySet(inc) ensures k in KeySet(chosen) {
      var f :| f in inc && f.group.key == k;
      var e := RunningWasChosen(items, st, now, after, later, f);
      KeyFixesEntryUser(items, st, now, e, after, later, f);
    }
    assert KeySet(chosen) == KeySet(inc);
    SameKeysSameSize(items, st, now, chosen);
    SameKeysSameSize(after, st, later, inc);
  }

  /** There are as many running groups in the next pass as were chosen. */
  lemma IncumbentsCarriedOver(items: seq<Download>, st: Settings, now: int, after: seq<Download>, later: int)
    requires DistinctIds(items) && Applied(items, Plan(items, st, now), after)
    ensures |SortedIncumbents(after, st, later)| == |Chosen(items, st, now)|
  {
    var chosen, inc := Chosen(items, st, now), SortedIncumbents(after, st, later);
    forall k | k in KeySet(Elems(chosen)) ensures k in KeySet(Elems(inc)) {
      var e :| e in Elems(chosen) && e.group.key == k;
      var f := ChosenRunsNext(items, st, now, after, later, e);
      assert f in Elems(inc);
    }
    forall k | k in KeySet(Elems(inc)) ensures k in KeySet(Elems(chosen)) {
      var f :| f in Elems(inc) && f.group.key == k;
      var e := RunningWasChosen(items, st, now, after, later, f);
      assert e in Elems(chosen);
    }
    assert KeySet(Elems(chosen)) == KeySet(Elems(inc));
    ChosenAreEntries(items, st, now);
    SortedEntries(after, st, later);
    SameKeysSameSize(items, st, now, Elems(chosen));
    SameKeysSameSize(after, st, later, Elems(inc));
    ElemsCardinality(chosen);
    ElemsCardinality(inc);
  }

  function KeySet(s: set<Entry>): set<string> {
    set e | e in s :: e.group.key
  }

  lemma TwinOf(items: seq<Download>, st: Settings, now: int, after: seq<Download>, later: int, e: Entry)
    returns (f: Entry)
    requires DistinctIds(items) && Applied(items, Plan(items, st, now), after)
    requires e in AllEntries(items, st, now)
    ensures f in AllEntries(after, st, later) && Twins(e, f, Elems(Chosen(items, st, now)))
  {
    EntryIsItsKey(items, st, now, e);
    KeysCarried(items, Plan(items, st, now), after, e.group.key);
    TwinsAt(items, st, now, after, later, e.group.key);
    f := At(after, st, later, e.group.key);
  }

  lemma TwinBack(items: seq<Download>, st: Settings, now: int, after: seq<Download>, later: int, f: Entry)
    returns (e: Entry)
    requires DistinctIds(items) && Applied(items, Plan(items, st, now), after)
    requires f in AllEntries(after, st, later)
    ensures e in AllEntries(items, st, now) && Twins(e, f, Elems(Chosen(items, st, now)))
  {
    EntryIsItsKey(after, st, later, f);
    KeysCarried(items, Plan(items, st, now), after, f.group.key);
    TwinsAt(items, st, now, after, later, f.group.key);
    e := At(items, st, now, f.group.key);
  }

  lemma {:induction false} SameKeysSameSize(items: seq<Download>, st: Settings, now: int, s: set<Entry>)
    requires s <= AllEntries(items, st, now)
    ensures |KeySet(s)| == |s|
  {
    if s != {} {
      var e := AnyOf(s);
      var rest := s - {e};
      SameKeysSameSize(items, st, now, rest);
      EntryIsItsKey(items, st, now, e);
      forall x | x in rest ensures x.group.key != e.group.key {
        EntryIsItsKey(items, st, now, x);
      }
      assert KeySet(s) == KeySet(rest) + {e.group.key};
      assert s == rest + {e};
    }
  }

  /** No thrash: under good settings the plan is a fixpoint of scheduling. */
  lemma GoodSettingsStable(items: seq<Download>, st: Settings, now: int)
    requires DistinctIds(items) && GoodSettings(st)
    ensures Stable(items, st, now)
  {
    forall after, later | Applied(items, Plan(items, st, now), after)
      ensures Plan(after, st, later) == Plan(items, st, now)
    {
      var chosen, inc, waiting := Chosen(items, st, now), SortedIncumbents(after, st, later), SortedWaiting(after, st, later);
      GoodSettingsChooseBest(items, st, now);
      IncumbentRowsCarriedOver(items, st, now, after, later);
      IncumbentsCarriedOver(items, st, now, after, later);
      SortedEntries(after, st, later);
      forall i, w | i in inc && w in waiting ensures Base(w) <= Base(i) {
        assert i in Elems(inc) && w in Elems(waiting);
        var i0 := TwinBack(items, st, now, after, later, i);
        var w0 := TwinBack(items, st, now, after, later, w);
      }
      if waiting != [] {
        assert waiting[0] in Elems(waiting);
        var w0 := TwinBack(items, st, now, after, later, waiting[0]);
      }
      FillSettled(inc, waiting, LimitsOf(st));
    }
  }
}
