/** How many groups a pass chooses, for every setting. */
module SlotCount {
  import opened Quantities
  import opened Sorting
  import opened Ranking
  import opened SlotFiller
  import opened Scheduler

  /** How many of a user's `n` groups the per-user cap lets through. */
  function Quota(cap: int, n: nat): nat {
    if cap <= 0 then n else Min(cap, n)
  }

  /** What holds after the groups in `seen` have been considered. */
  ghost predicate Seated(active: seq<Entry>, seen: set<Entry>, lim: Limits) {
    && NoDup(active)
    && Elems(active) <= seen
    && |active| <= lim.maxActive
    && (lim.perUserMax > 0 ==> forall u :: UserCount(Elems(active), u) <= lim.perUserMax)
    && (|active| == lim.maxActive || forall u :: UserCount(Elems(active), u) == Quota(lim.perUserMax, UserCount(seen, u)))
  }

  /** Considering one more group, with or without a right to preempt, keeps the counts. */
  lemma SeatedStep(active: seq<Entry>, seen: set<Entry>, e: Entry, lim: Limits)
    requires Seated(active, seen, lim) && e !in seen
    ensures if Room(active, lim) && Under(active, e.rep.userId, lim) then Seated(active + [e], seen + {e}, lim)
            else Seated(active, seen + {e}, lim) && Seated(Preempt(active, e, lim), seen + {e}, lim)
  {
    if Room(active, lim) && Under(active, e.rep.userId, lim) {
      assert Elems(active + [e]) == Elems(active) + {e};
      forall u ensures UserCount(Elems(active + [e]), u) == Quota(lim.perUserMax, UserCount(seen + {e}, u)) {
        CountAdded(Elems(active), e, u);
        CountAdded(seen, e, u);
      }
    } else {
      if Room(active, lim) {
        forall u ensures UserCount(Elems(active), u) == Quota(lim.perUserMax, UserCount(seen + {e}, u)) {
          CountAdded(seen, e, u);
        }
      }
      var next, w := Preempt(active, e, lim), WeakestIncumbent(active);
      if next != active {
        ElemsOfUpdate(active, w, e);
        forall u ensures UserCount(Elems(next), u) <= UserCount(Elems(active), u) + if u == e.rep.userId then 1 else 0 {
          CountSwapped(active, w, e, u);
        }
      }
    }
  }

  lemma {:induction false} SeatSeated(inc: seq<Entry>, lim: Limits)
    requires NoDup(inc) && lim.maxActive > 0
    ensures Seated(Seat(inc, lim), Elems(inc), lim)
  {
    if inc != [] {
      var init, e := inc[..|inc| - 1], inc[|inc| - 1];
      SeatSeated(init, lim);
      SeatedStep(Seat(init, lim), Elems(init), e, lim);
      assert Elems(inc) == Elems(init) + {e};
    } else {
      assert forall u :: OfUser({}, u) == {};
      assert Elems(inc) == {};
    }
  }

  lemma {:induction false} FillSeated(inc: seq<Entry>, waiting: seq<Entry>, lim: Limits)
    requires NoDup(inc) && NoDup(waiting) && Elems(inc) !! Elems(waiting) && lim.maxActive > 0
    ensures Seated(Fill(inc, waiting, lim), Elems(inc) + Elems(waiting), lim)
  {
    if waiting != [] {
      var init, e := waiting[..|waiting| - 1], waiting[|waiting| - 1];
      assert Elems(waiting) == Elems(init) + {e} && e !in Elems(init) && e !in Elems(inc);
      FillSeated(inc, init, lim);
      SeatedStep(Fill(inc, init, lim), Elems(inc) + Elems(init), e, lim);
      assert Elems(inc) + Elems(init) + {e} == Elems(inc) + Elems(waiting);
    } else {
      SeatSeated(inc, lim);
      assert Elems(inc) + Elems(waiting) == Elems(inc);
    }
  }

  /** The slots `users` may fill out of the groups in `s`, each user up to the cap. */
  ghost function Quotas(users: set<int>, s: set<Entry>, cap: int): nat {
    if users == {} then 0
    else
      var u := AnyOf(users);
      Quota(cap, UserCount(s, u)) + Quotas(users - {u}, s, cap)
  }

  lemma {:induction false} QuotasMonotone(users: set<int>, s: set<Entry>, a: int, t: set<Entry>, b: int)
    requires forall u | u in users :: Quota(a, UserCount(s, u)) <= Quota(b, UserCount(t, u))
    ensures Quotas(users, s, a) <= Quotas(users, t, b)
    decreases |users|
  {
    if users != {} {
      var u := AnyOf(users);
      QuotasSplit(users, u, t, b);
      QuotasMonotone(users - {u}, s, a, t, b);
    }
  }

  /** The sum does not depend on the order in which the users are added up. */
  lemma {:induction false} QuotasSplit(users: set<int>, u: int, s: set<Entry>, cap: int)
    requires u in users
    ensures Quotas(users, s, cap) == Quota(cap, UserCount(s, u)) + Quotas(users - {u}, s, cap)
    decreases |users|
  {
    var v := AnyOf(users);
    if v != u {
      QuotasSplit(users - {v}, u, s, cap);
      QuotasSplit(users - {u}, v, s, cap);
      assert users - {v} - {u} == users - {u} - {v};
    }
  }

  /** Counting user by user counts everything. */
  lemma {:induction false} QuotasCountAll(users: set<int>, s: set<Entry>)
    requires forall e | e in s :: e.rep.userId in users
    ensures Quotas(users, s, 0) == |s|
    decreases |users|
  {
    if users == {} {
      assert s == {};
    } else {
      var u := AnyOf(users);
      var own, rest := OfUser(s, u), s - OfUser(s, u);
      QuotasSplit(users, u, s, 0);
      QuotasCountAll(users - {u}, rest);
      forall v | v in users - {u} ensures UserCount(rest, v) == UserCount(s, v) {
        assert OfUser(rest, v) == OfUser(s, v);
      }
      QuotasMonotone(users - {u}, rest, 0, s, 0);
      QuotasMonotone(users - {u}, s, 0, rest, 0);
      assert s == own + rest;
    }
  }

  ghost function Users(items: seq<Download>): set<int> {
    set d | d in items :: d.userId
  }

  /** All the groups of the rows, as ranked entries. */
  ghost function AllEntries(items: seq<Download>, st: Settings, now: int): set<Entry> {
    Elems(Entries(items, st, now))
  }

  /**
    * For every setting, the pass fills exactly as many slots as the two limits allow, three if the ceiling is not
    * set, and no user holds more than the per-user cap, whatever was preempted on the way.
    */
  lemma SlotsExactlyFilled(items: seq<Download>, st: Settings, now: int)
    requires DistinctIds(items)
    ensures var chosen, all := Chosen(items, st, now), AllEntries(items, st, now);
            && NoDup(chosen) && Elems(chosen) <= all
            && |chosen| == Min(if st.maxActive > 0 then st.maxActive else 3, Quotas(Users(items), all, st.perUserMax))
            && (st.perUserMax > 0 ==> forall u :: UserCount(Elems(chosen), u) <= st.perUserMax)
  {
    var lim, all := LimitsOf(st), AllEntries(items, st, now);
    SortedEntries(items, st, now);
    FillSeated(SortedIncumbents(items, st, now), SortedWaiting(items, st, now), lim);
    forall e | e in all ensures e.rep.userId in Users(items) {
      assert e.rep in e.group.members;
    }
    SeatedFillsQuotas(Chosen(items, st, now), all, lim, Users(items));
  }

  lemma SeatedFillsQuotas(active: seq<Entry>, all: set<Entry>, lim: Limits, users: set<int>)
    requires Seated(active, all, lim)
    requires forall e | e in all :: e.rep.userId in users
    ensures |active| == Min(lim.maxActive, Quotas(users, all, lim.perUserMax))
  {
    var s, cap := Elems(active), lim.perUserMax;
    ElemsCardinality(active);
    QuotasCountAll(users, s);
    forall u ensures UserCount(s, u) <= Quota(cap, UserCount(all, u)) {
      SubsetCount(OfUser(s, u), OfUser(all, u));
    }
    QuotasMonotone(users, s, 0, all, cap);
    if |active| < lim.maxActive {
      QuotasMonotone(users, all, cap, s, 0);
    }
  }

  /** The chosen groups are groups of the given rows, each once. */
  lemma ChosenAreEntries(items: seq<Download>, st: Settings, now: int)
    requires DistinctIds(items)
    ensures NoDup(Chosen(items, st, now))
    ensures forall e | e in Chosen(items, st, now) :: e in AllEntries(items, st, now)
  {
    SlotsExactlyFilled(items, st, now);
    assert forall e | e in Chosen(items, st, now) :: e in Elems(Chosen(items, st, now));
  }

  lemma {:induction false} SubsetCount<T>(a: set<T>, b: set<T>)
    requires a <= b
    ensures |a| <= |b|
  {
    assert b == a + (b - a);
    assert |b| == |a| + |b - a|;
  }

  /** The chosen rows are whole groups: no group has some rows in the plan and some outside. */
  lemma PlanIsGroupAtomic(items: seq<Download>, st: Settings, now: int, e: Entry)
    requires DistinctIds(items)
    requires e in AllEntries(items, st, now)
    ensures if e in Chosen(items, st, now) then Ids(e) <= Plan(items, st, now) else Ids(e) !! Plan(items, st, now)
  {
    SlotsExactlyFilled(items, st, now);
    EntriesIndependent(items, st, now);
    var chosen := Chosen(items, st, now);
    if e in chosen {
      assert forall id | id in Ids(e) :: id in Plan(items, st, now);
    } else {
      forall id | id in Ids(e) ensures id !in Plan(items, st, now) {
        forall a, m | a in chosen && m in a.group.members ensures m.id != id {
          assert a in Elems(chosen);
          assert m.id in Ids(a);
        }
      }
    }
  }
}
