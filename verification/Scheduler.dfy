/** The scheduling pass: which rows should be downloading, given the queued and downloading ones. */
module Scheduler {
  import opened Sorting
  import opened Ranking
  import opened Grouping
  import opened SlotFiller

  const DEFAULT_MAX_ACTIVE := 3

  function LimitsOf(st: Settings): (lim: Limits)
    ensures lim.maxActive > 0
  {
    Limits(if st.maxActive <= 0 then DEFAULT_MAX_ACTIVE else st.maxActive, st.perUserMax)
  }

  function EntryFor(g: Group, st: Settings, now: int): Entry
    requires |g.members| > 0
  {
    Entry(g, RepresentativeOf(g.members, st, now))
  }

  /** One entry per group, in group order. */
  function Entries(items: seq<Download>, st: Settings, now: int): (es: seq<Entry>)
    ensures |es| == |Groups(items)|
    ensures forall i | 0 <= i < |es| :: es[i] == EntryFor(Groups(items)[i], st, now)
  {
    var gs := Groups(items);
    seq(|gs|, i requires 0 <= i < |gs| => EntryFor(gs[i], st, now))
  }

  /** The incumbents of `es`, or the others, in their order. */
  function Select(es: seq<Entry>, incumbent: bool): seq<Entry> {
    if es == [] then []
    else
      var r := Select(es[..|es| - 1], incumbent);
      if Incumbent(es[|es| - 1]) == incumbent then r + [es[|es| - 1]] else r
  }

  predicate HigherBase(a: Entry, b: Entry) {
    Base(a) > Base(b)
  }

  function PromotedBefore(st: Settings, now: int): (Entry, Entry) -> bool {
    (a: Entry, b: Entry) => PromotionLess(a.rep, b.rep, st, now)
  }

  function SortedIncumbents(items: seq<Download>, st: Settings, now: int): seq<Entry> {
    StableSort(Select(Entries(items, st, now), true), HigherBase)
  }

  function SortedWaiting(items: seq<Download>, st: Settings, now: int): seq<Entry> {
    StableSort(Select(Entries(items, st, now), false), PromotedBefore(st, now))
  }

  /** The groups holding a slot when the pass ends. */
  ghost function Chosen(items: seq<Download>, st: Settings, now: int): seq<Entry> {
    Fill(SortedIncumbents(items, st, now), SortedWaiting(items, st, now), LimitsOf(st))
  }

  /** The rows that should be downloading. */
  ghost function Plan(items: seq<Download>, st: Settings, now: int): set<int> {
    IdsOf(Chosen(items, st, now))
  }

  lemma {:induction false} FillFrom(inc: seq<Entry>, waiting: seq<Entry>, lim: Limits)
    ensures forall e | e in Seat(inc, lim) :: e in inc
    ensures forall e | e in Fill(inc, waiting, lim) :: e in inc || e in waiting
    decreases |inc| + |waiting|
  {
    if waiting != [] {
      FillFrom(inc, waiting[..|waiting| - 1], lim);
    } else if inc != [] {
      FillFrom(inc[..|inc| - 1], [], lim);
    }
  }

  lemma SameIdSameRow(items: seq<Download>, m: Download, n: Download)
    requires DistinctIds(items) && m in items && n in items && m.id == n.id
    ensures m == n
  {
    var i, j :| 0 <= i < |items| && 0 <= j < |items| && items[i] == m && items[j] == n;
    assert i == j;
  }

  lemma EntryIsItsKey(items: seq<Download>, st: Settings, now: int, e: Entry)
    requires e in Entries(items, st, now)
    ensures e.group.key in Keys(items) && e == EntryFor(GroupFor(items, e.group.key), st, now)
  {
  }

  /** Rows have distinct ids, so entries are distinct and own different rows. */
  lemma EntriesIndependent(items: seq<Download>, st: Settings, now: int)
    requires DistinctIds(items)
    ensures NoDup(Entries(items, st, now))
    ensures Independent(Elems(Entries(items, st, now)))
  {
    var es := Entries(items, st, now);
    forall a, b, m, n | a in es && b in es && m in a.group.members && n in b.group.members && m.id == n.id
      ensures a == b
    {
      EntryIsItsKey(items, st, now, a);
      EntryIsItsKey(items, st, now, b);
      SameIdSameRow(items, m, n);
    }
  }

  lemma {:induction false} SelectExact(es: seq<Entry>, incumbent: bool)
    ensures forall e :: e in Select(es, incumbent) <==> e in es && Incumbent(e) == incumbent
    ensures NoDup(es) ==> NoDup(Select(es, incumbent))
  {
    if es != [] {
      assert es == es[..|es| - 1] + [es[|es| - 1]];
      SelectExact(es[..|es| - 1], incumbent);
    }
  }

  lemma SortKeeps(s: seq<Entry>, less: (Entry, Entry) -> bool)
    requires NoDup(s)
    ensures NoDup(StableSort(s, less)) && Elems(StableSort(s, less)) == Elems(s)
  {
    SortNoDup(s, StableSort(s, less));
    SameElems(s, StableSort(s, less));
  }

  /** Two duplicate-free lists of incumbents and of waiting groups, owning different rows. */
  ghost predicate Ranked(inc: seq<Entry>, waiting: seq<Entry>) {
    && NoDup(inc) && NoDup(waiting)
    && Independent(Elems(inc) + Elems(waiting))
    && (forall e | e in Elems(inc) :: Incumbent(e))
    && (forall e | e in Elems(waiting) :: !Incumbent(e))
  }

  lemma RankedFrom(es: seq<Entry>, inc: seq<Entry>, waiting: seq<Entry>)
    requires NoDup(es) && Independent(Elems(es)) && NoDup(inc) && NoDup(waiting)
    requires Elems(inc) == Elems(Select(es, true)) && Elems(waiting) == Elems(Select(es, false))
    ensures Ranked(inc, waiting) && Elems(inc) + Elems(waiting) == Elems(es)
  {
    SelectExact(es, true);
    SelectExact(es, false);
    assert Elems(inc) + Elems(waiting) == Elems(es);
  }

  /** The sorted incumbents and waiting groups together are all the groups, each once. */
  lemma SortedEntries(items: seq<Download>, st: Settings, now: int)
    requires DistinctIds(items)
    ensures Ranked(SortedIncumbents(items, st, now), SortedWaiting(items, st, now))
    ensures Elems(SortedIncumbents(items, st, now)) + Elems(SortedWaiting(items, st, now)) == Elems(Entries(items, st, now))
  {
    var es := Entries(items, st, now);
    EntriesIndependent(items, st, now);
    SelectExact(es, true);
    SelectExact(es, false);
    SortKeeps(Select(es, true), HigherBase);
    SortKeeps(Select(es, false), PromotedBefore(st, now));
    RankedFrom(es, SortedIncumbents(items, st, now), SortedWaiting(items, st, now));
  }

  /** The next group to consider holds no slot yet and shares no row with the active ones. */
  lemma NextIsNew(inc: seq<Entry>, waiting: seq<Entry>, lim: Limits, k: nat)
    requires Ranked(inc, waiting)
    ensures k < |inc| ==> var a := Seat(inc[..k], lim); inc[k] !in a && Independent(Elems(a) + {inc[k]})
    ensures k < |waiting| ==> var a := Fill(inc, waiting[..k], lim); waiting[k] !in a && Independent(Elems(a) + {waiting[k]})
  {
    if k < |inc| {
      FillFrom(inc[..k], [], lim);
      assert Elems(Seat(inc[..k], lim)) + {inc[k]} <= Elems(inc);
    }
    if k < |waiting| {
      FillFrom(inc, waiting[..k], lim);
      assert waiting[k] in Elems(waiting);
      assert Elems(Fill(inc, waiting[..k], lim)) + {waiting[k]} <= Elems(inc) + Elems(waiting);
    }
  }

  /** Running groups of one priority stay in the order of their first rows. */
  lemma RunningInOrder(items: seq<Download>, st: Settings, now: int, base: int)
    ensures WithKey(SortedIncumbents(items, st, now), Base, base) == WithKey(Select(Entries(items, st, now), true), Base, base)
  {
    SortStable(Select(Entries(items, st, now), true), HigherBase, Base, base);
  }

  lemma SelectStep(es: seq<Entry>, i: nat, incumbent: bool)
    requires i < |es|
    ensures Select(es[..i + 1], incumbent)
         == Select(es[..i], incumbent) + if Incumbent(es[i]) == incumbent then [es[i]] else []
  {
    assert es[..i + 1][..i] == es[..i];
  }

  /** Ranks the groups, running ones apart from waiting ones. */
  method RankGroups(items: seq<Download>, st: Settings, now: int) returns (incumbents: seq<Entry>, waiting: seq<Entry>)
    ensures incumbents == SortedIncumbents(items, st, now)
    ensures waiting == SortedWaiting(items, st, now)
  {
    var groups := GroupRows(items);
    ghost var es := Entries(items, st, now);
    incumbents, waiting := [], [];
    for i := 0 to |groups|
      invariant incumbents == Select(es[..i], true) && waiting == Select(es[..i], false)
    {
      var rep, downloading := Representative(groups[i].members, st, now);
      var sg := Entry(groups[i], rep);
      assert es[i] == sg;
      SelectStep(es, i, true);
      SelectStep(es, i, false);
      if downloading {
        incumbents := incumbents + [sg];
      } else {
        waiting := waiting + [sg];
      }
    }
    assert es[..|groups|] == es;
    incumbents := StableSort(incumbents, HigherBase);
    waiting := StableSort(waiting, PromotedBefore(st, now));
  }

  /** Running groups, strongest first, keep their slots while both limits allow. */
  method SeatIncumbents(f: Filler, incumbents: seq<Entry>, ghost waiting: seq<Entry>)
    requires f.Valid() && f.active == [] && Ranked(incumbents, waiting)
    modifies f
    ensures f.Valid() && f.active == Seat(incumbents, f.lim)
  {
    for i := 0 to |incumbents|
      invariant f.Valid() && f.active == Seat(incumbents[..i], f.lim)
    {
      var sg := incumbents[i];
      assert incumbents[..i + 1][..i] == incumbents[..i];
      NextIsNew(incumbents, waiting, f.lim, i);
      if f.HasGlobalRoom() && f.UnderPerUser(sg.rep.userId) {
        f.Take(sg);
      }
    }
    assert incumbents[..|incumbents|] == incumbents;
  }

  /** Waiting groups, in promotion order, take a free slot or preempt a weaker running group. */
  method AdmitWaiting(f: Filler, ghost incumbents: seq<Entry>, waiting: seq<Entry>)
    requires f.Valid() && f.active == Seat(incumbents, f.lim) && Ranked(incumbents, waiting)
    modifies f
    ensures f.Valid() && f.active == Fill(incumbents, waiting, f.lim)
  {
    for i := 0 to |waiting|
      invariant f.Valid() && f.active == Fill(incumbents, waiting[..i], f.lim)
    {
      var sg := waiting[i];
      assert waiting[..i + 1][..i] == waiting[..i];
      NextIsNew(incumbents, waiting, f.lim, i);
      if f.HasGlobalRoom() && f.UnderPerUser(sg.rep.userId) {
        f.Take(sg);
        continue;
      }
      f.TryPreempt(sg);
    }
    assert waiting[..|waiting|] == waiting;
  }

  method SchedulePlan(items: seq<Download>, st: Settings, now: int) returns (want: set<int>)
    requires DistinctIds(items)
    ensures want == Plan(items, st, now)
  {
    var incumbents, waiting := RankGroups(items, st, now);
    SortedEntries(items, st, now);
    var f := new Filler(LimitsOf(st));
    SeatIncumbents(f, incumbents, waiting);
    AdmitWaiting(f, incumbents, waiting);
    want := f.want;
  }
}
