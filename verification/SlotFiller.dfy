/** Filling the download slots: a global ceiling, an optional per-user cap, and preemption. */
module SlotFiller {
  import opened Sorting
  import opened Ranking
  import opened Grouping

  /** A group with the row that drives its rank. */
  datatype Entry = Entry(group: Group, rep: Download)

  /** The two ceilings; a per-user cap of zero or less means none. */
  datatype Limits = Limits(maxActive: int, perUserMax: int)

  function Base(e: Entry): int {
    PriorityBase(e.rep.priority)
  }

  predicate Incumbent(e: Entry) {
    AnyDownloading(e.group.members)
  }

  function Ids(e: Entry): set<int> {
    set m | m in e.group.members :: m.id
  }

  function IdsOf(s: seq<Entry>): set<int> {
    set e, m | e in s && m in e.group.members :: m.id
  }

  /** Different groups own different rows. */
  ghost predicate Independent(s: set<Entry>) {
    forall a, b | a in s && b in s && a != b :: Ids(a) !! Ids(b)
  }

  ghost function OfUser(s: set<Entry>, u: int): set<Entry> {
    set e | e in s && e.rep.userId == u
  }

  ghost function UserCount(s: set<Entry>, u: int): nat {
    |OfUser(s, u)|
  }

  // ---- What each operation of the filler does to the list of active groups ----

  ghost predicate Room(active: seq<Entry>, lim: Limits) {
    |active| < lim.maxActive
  }

  ghost predicate Under(active: seq<Entry>, u: int, lim: Limits) {
    lim.perUserMax <= 0 || UserCount(Elems(active), u) < lim.perUserMax
  }

  /** The first incumbent of least base priority, or -1. */
  function WeakestIncumbent(active: seq<Entry>): (w: int)
    ensures -1 <= w < |active|
    ensures w < 0 ==> forall a <- active :: !Incumbent(a)
    ensures w >= 0 ==> Incumbent(active[w]) && forall a <- active | Incumbent(a) :: Base(active[w]) <= Base(a)
  {
    if active == [] then -1
    else
      var n := |active| - 1;
      var w := WeakestIncumbent(active[..n]);
      assert active == active[..n] + [active[n]];
      if Incumbent(active[n]) && (w == -1 || Base(active[n]) < Base(active[w])) then n else w
  }

  /** Of several such it is the first. */
  lemma {:induction false} WeakestIsFirst(active: seq<Entry>, j: nat)
    requires j < WeakestIncumbent(active) && Incumbent(active[j])
    ensures Base(active[WeakestIncumbent(active)]) < Base(active[j])
  {
    var n := |active| - 1;
    if WeakestIncumbent(active) < n {
      WeakestIsFirst(active[..n], j);
    } else {
      assert active[..n][j] in active[..n];
    }
  }

  ghost function Preempt(active: seq<Entry>, candidate: Entry, lim: Limits): (r: seq<Entry>)
    ensures |r| == |active|
  {
    var w := WeakestIncumbent(active);
    if Under(active, candidate.rep.userId, lim) && w >= 0 && Base(candidate) > Base(active[w])
    then active[w := candidate] else active
  }

  ghost function Seat(incumbents: seq<Entry>, lim: Limits): seq<Entry> {
    if incumbents == [] then []
    else
      var last := incumbents[|incumbents| - 1];
      var active := Seat(incumbents[..|incumbents| - 1], lim);
      if Room(active, lim) && Under(active, last.rep.userId, lim) then active + [last] else active
  }

  ghost function Fill(incumbents: seq<Entry>, waiting: seq<Entry>, lim: Limits): seq<Entry> {
    if waiting == [] then Seat(incumbents, lim)
    else
      var last := waiting[|waiting| - 1];
      var active := Fill(incumbents, waiting[..|waiting| - 1], lim);
      if Room(active, lim) && Under(active, last.rep.userId, lim) then active + [last]
      else Preempt(active, last, lim)
  }

  // ---- Counting ----

  lemma CountAdded(s: set<Entry>, e: Entry, u: int)
    requires e !in s
    ensures UserCount(s + {e}, u) == UserCount(s, u) + if e.rep.userId == u then 1 else 0
  {
    if e.rep.userId == u {
      assert OfUser(s + {e}, u) == OfUser(s, u) + {e};
    } else {
      assert OfUser(s + {e}, u) == OfUser(s, u);
    }
  }

  lemma ElemsOfUpdate(s: seq<Entry>, i: nat, e: Entry)
    requires i < |s| && NoDup(s) && e !in s
    ensures NoDup(s[i := e])
    ensures Elems(s[i := e]) == Elems(s) - {s[i]} + {e}
  {
    forall x | x in s && x != s[i] ensures x in s[i := e] {
      var k :| 0 <= k < |s| && s[k] == x;
      assert s[i := e][k] == x;
    }
    assert s[i := e][i] == e;
    forall x | x in s[i := e] ensures x in Elems(s) - {s[i]} + {e} {
      var k :| 0 <= k < |s| && s[i := e][k] == x;
    }
  }

  lemma CountSwapped(s: seq<Entry>, i: nat, e: Entry, u: int)
    requires i < |s| && NoDup(s) && e !in s
    ensures UserCount(Elems(s[i := e]), u) ==
            UserCount(Elems(s), u) - (if s[i].rep.userId == u then 1 else 0) + (if e.rep.userId == u then 1 else 0)
  {
    ElemsOfUpdate(s, i, e);
    var rest := Elems(s) - {s[i]};
    assert Elems(s) == rest + {s[i]};
    CountAdded(rest, s[i], u);
    CountAdded(rest, e, u);
  }

  class Filler {
    const lim: Limits
    var active: seq<Entry>
    var want: set<int>
    var perUserCount: map<int, int>

    function CountOf(u: int): int
      reads this
    {
      if u in perUserCount then perUserCount[u] else 0
    }

    /** `want` is the rows of the active groups, and each counter counts its user's active groups. */
    ghost predicate Valid()
      reads this
    {
      && NoDup(active)
      && Independent(Elems(active))
      && want == IdsOf(active)
      && forall u :: CountOf(u) == UserCount(Elems(active), u)
    }

    constructor (lim: Limits)
      ensures this.lim == lim && Valid() && active == []
    {
      this.lim := lim;
      active, want, perUserCount := [], {}, map[];
      new;
      assert forall u :: OfUser(Elems(active), u) == {};
    }

    predicate HasGlobalRoom()
      reads this
    {
      |active| < lim.maxActive
    }

    predicate UnderPerUser(u: int)
      reads this
    {
      lim.perUserMax <= 0 || CountOf(u) < lim.perUserMax
    }

    method Take(e: Entry)
      requires Valid() && e !in active && Independent(Elems(active) + {e})
      modifies this
      ensures Valid() && active == old(active) + [e]
    {
      ghost var was := Elems(active);
      active := active + [e];
      want := want + Ids(e);
      perUserCount := perUserCount[e.rep.userId := CountOf(e.rep.userId) + 1];
      assert Elems(active) == was + {e};
      forall u ensures CountOf(u) == UserCount(Elems(active), u) {
        CountAdded(was, e, u);
      }
    }

    method WeakestPreemptable(candidate: Entry) returns (i: int)
      ensures var w := WeakestIncumbent(active);
              i == if w >= 0 && Base(candidate) > Base(active[w]) then w else -1
    {
      var weakest := -1;
      for k := 0 to |active|
        invariant weakest == WeakestIncumbent(active[..k])
      {
        assert active[..k + 1][..k] == active[..k];
        if Incumbent(active[k]) && (weakest == -1 || Base(active[k]) < Base(active[weakest])) {
          weakest := k;
        }
      }
      assert active[..|active|] == active;
      i := if weakest >= 0 && Base(candidate) > Base(active[weakest]) then weakest else -1;
    }

    method TryPreempt(candidate: Entry)
      requires Valid() && candidate !in active && Independent(Elems(active) + {candidate})
      modifies this
      ensures Valid() && active == Preempt(old(active), candidate, lim)
    {
      if !UnderPerUser(candidate.rep.userId) {
        return;
      }
      var i := WeakestPreemptable(candidate);
      if i < 0 {
        return;
      }
      ghost var was := active;
      var victim := active[i];
      SwapAccounts(was, i, candidate);
      want := want - Ids(victim);
      perUserCount := perUserCount[victim.rep.userId := CountOf(victim.rep.userId) - 1];
      active := active[i := candidate];
      want := want + Ids(candidate);
      perUserCount := perUserCount[candidate.rep.userId := CountOf(candidate.rep.userId) + 1];
      forall u ensures CountOf(u) == UserCount(Elems(active), u) {
        assert UserCount(Elems(was[i := candidate]), u) ==
               UserCount(Elems(was), u) - (if victim.rep.userId == u then 1 else 0) + (if candidate.rep.userId == u then 1 else 0);
      }
    }
  }

  /** Everything the filler keeps track of, after a swap. */
  lemma SwapAccounts(s: seq<Entry>, i: nat, e: Entry)
    requires i < |s| && NoDup(s) && e !in s && Independent(Elems(s) + {e})
    ensures NoDup(s[i := e]) && Independent(Elems(s[i := e]))
    ensures IdsOf(s[i := e]) == IdsOf(s) - Ids(s[i]) + Ids(e)
    ensures forall u :: UserCount(Elems(s[i := e]), u) ==
              UserCount(Elems(s), u) - (if s[i].rep.userId == u then 1 else 0) + (if e.rep.userId == u then 1 else 0)
  {
    SwapIds(s, i, e);
    ElemsOfUpdate(s, i, e);
    forall u ensures UserCount(Elems(s[i := e]), u) ==
              UserCount(Elems(s), u) - (if s[i].rep.userId == u then 1 else 0) + (if e.rep.userId == u then 1 else 0)
    {
      CountSwapped(s, i, e, u);
    }
  }

  /** Taking out the victim's rows leaves exactly the rows of the other groups. */
  lemma SwapIds(s: seq<Entry>, i: nat, e: Entry)
    requires i < |s| && NoDup(s) && e !in s && Independent(Elems(s) + {e})
    ensures IdsOf(s[i := e]) == IdsOf(s) - Ids(s[i]) + Ids(e)
  {
    ElemsOfUpdate(s, i, e);
    assert forall a | a in Elems(s) && a != s[i] :: Ids(a) !! Ids(s[i]);
    forall id ensures id in IdsOf(s[i := e]) <==> id in IdsOf(s) - Ids(s[i]) + Ids(e) {
      if id in IdsOf(s[i := e]) {
        var a, m :| a in s[i := e] && m in a.group.members && m.id == id;
        assert id in Ids(a) && a in Elems(s[i := e]);
      }
      if id in IdsOf(s) && id !in Ids(s[i]) {
        var a, m :| a in s && m in a.group.members && m.id == id;
        assert id in Ids(a) && a in Elems(s[i := e]);
      }
      if id in Ids(e) {
        assert e in Elems(s[i := e]);
      }
    }
  }
}
