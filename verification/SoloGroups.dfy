/** Tables in which every row is a group of its own. */
module SoloGroups {
  import opened Sorting
  import opened Ranking
  import opened Grouping
  import opened SlotFiller
  import opened Scheduler
  import opened SlotCount
  import opened PlanLaws

  /** The entry of a row that is a group of its own. */
  function Solo(r: Download): Entry {
    Entry(Group(KeyOf(r), r.userId, [r]), r)
  }

  ghost predicate Hashless(items: seq<Download>) {
    DistinctIds(items) && forall r <- items :: r.infoHash == ""
  }

  lemma LastKeyIsNew(init: seq<Download>, last: Download)
    requires Hashless(init + [last])
    ensures KeyOf(last) !in Keys(init) && MembersOf(init, KeyOf(last)) == []
  {
    var twins, items := MembersOf(init, KeyOf(last)), init + [last];
    assert twins != [] ==> twins[0] in init;
    forall r | r in init ensures KeyOf(r) != KeyOf(last) {
      KeysAgreeExactly(r, last);
      var j :| 0 <= j < |init| && init[j] == r;
      assert items[j] == r && items[|init|] == last;
    }
    KeysExact(init, KeyOf(last));
  }

  lemma {:induction false} SoloKeys(items: seq<Download>)
    requires Hashless(items)
    ensures |Keys(items)| == |items|
    ensures forall k | 0 <= k < |items| :: Keys(items)[k] == KeyOf(items[k])
  {
    if items != [] {
      var init, last := items[..|items| - 1], items[|items| - 1];
      assert items == init + [last];
      LastKeyIsNew(init, last);
      Append(init, last, KeyOf(last));
      SoloKeys(init);
    }
  }

  lemma {:induction false} SoloMembers(items: seq<Download>, k: nat)
    requires Hashless(items) && k < |items|
    ensures MembersOf(items, KeyOf(items[k])) == [items[k]]
  {
    var init, last := items[..|items| - 1], items[|items| - 1];
    assert items == init + [last];
    LastKeyIsNew(init, last);
    Append(init, last, KeyOf(items[k]));
    if k < |init| {
      SoloMembers(init, k);
      assert init[k] in MembersOf(init, KeyOf(init[k]));
    }
  }

  function Solos(items: seq<Download>): seq<Entry> {
    seq(|items|, i requires 0 <= i < |items| => Solo(items[i]))
  }

  lemma SoloEntries(items: seq<Download>, st: Settings, now: int)
    requires Hashless(items)
    ensures Entries(items, st, now) == Solos(items)
  {
    SoloKeys(items);
    forall k | 0 <= k < |items| ensures EntryFor(GroupFor(items, Keys(items)[k]), st, now) == Solo(items[k]) {
      SoloMembers(items, k);
    }
  }

  lemma SoloOf(items: seq<Download>, e: Entry) returns (i: nat)
    requires e in Elems(Solos(items))
    ensures i < |items| && e == Solo(items[i])
  {
    i :| 0 <= i < |Solos(items)| && Solos(items)[i] == e;
  }

  lemma SoloIn(items: seq<Download>, i: nat)
    requires i < |items|
    ensures Solo(items[i]) in Elems(Solos(items))
    ensures Incumbent(Solo(items[i])) <==> items[i].status == Downloading
  {
    assert Solos(items)[i] == Solo(items[i]);
    assert items[i] in [items[i]];
  }

  lemma {:induction false} SelectUniform(es: seq<Entry>, b: bool)
    requires forall i | 0 <= i < |es| :: Incumbent(es[i]) == b
    ensures Select(es, b) == es && Select(es, !b) == []
  {
    if es != [] {
      SelectUniform(es[..|es| - 1], b);
    }
  }

  lemma {:induction false} SelectConcat(es: seq<Entry>, fs: seq<Entry>, b: bool)
    ensures Select(es + fs, b) == Select(es, b) + Select(fs, b)
  {
    if fs == [] {
      assert es + fs == es;
    } else {
      SelectConcat(es, fs[..|fs| - 1], b);
      assert (es + fs)[..|es + fs| - 1] == es + fs[..|fs| - 1];
    }
  }

  /** A row outside the plan that the next pass picks shows the plan is not stable. */
  lemma Unsettled(items: seq<Download>, st: Settings, now: int, k: nat)
    requires DistinctIds(items) && k < |items| && items[k].id !in Plan(items, st, now)
    requires Schedulable(items)
    requires var after := AllLanded(items, Plan(items, st, now), now); Solo(after[k]) in Chosen(after, st, now)
    ensures !Stable(items, st, now)
  {
    var after := AllLanded(items, Plan(items, st, now), now);
    LandedApplied(items, Plan(items, st, now), now);
    var f := Solo(after[k]);
    assert after[k] in f.group.members && after[k].id in Plan(after, st, now);
  }

  /** A row whose own group holds no slot is outside the plan. */
  lemma SoloLeftOut(items: seq<Download>, st: Settings, now: int, k: nat)
    requires Hashless(items) && k < |items| && Solo(items[k]) !in Chosen(items, st, now)
    ensures items[k].id !in Plan(items, st, now)
  {
    SoloEntries(items, st, now);
    SoloIn(items, k);
    PlanIsGroupAtomic(items, st, now, Solo(items[k]));
    assert items[k] in Solo(items[k]).group.members;
  }

  lemma RankedSizes(items: seq<Download>, st: Settings, now: int)
    ensures |SortedIncumbents(items, st, now)| + |SortedWaiting(items, st, now)| == |Entries(items, st, now)|
  {
    SelectSizes(Entries(items, st, now));
  }

  lemma {:induction false} SelectSizes(es: seq<Entry>)
    ensures |Select(es, true)| + |Select(es, false)| == |es|
  {
    if es != [] {
      SelectSizes(es[..|es| - 1]);
    }
  }
}
