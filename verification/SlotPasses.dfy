/** Single passes over ranked groups: who is seated, who stays, who gets in. */
module SlotPasses {
  import opened Sorting
  import opened SlotFiller
  import opened SlotCount
  import opened PlanLaws

  ghost predicate WithinCap(s: set<Entry>, lim: Limits) {
    lim.perUserMax > 0 ==> forall u :: UserCount(s, u) <= lim.perUserMax
  }

  /** Before each group is seated its user is still below the cap. */
  lemma UnderAtPrefix(inc: seq<Entry>, k: nat, lim: Limits)
    requires NoDup(inc) && k < |inc| && WithinCap(Elems(inc), lim)
    ensures Under(inc[..k], inc[k].rep.userId, lim)
  {
    var u := inc[k].rep.userId;
    var before := Elems(inc[..k]);
    assert inc[k] !in before && before + {inc[k]} <= Elems(inc);
    CountAdded(before, inc[k], u);
    SubsetCount(OfUser(before + {inc[k]}, u), OfUser(Elems(inc), u));
    assert UserCount(before, u) < UserCount(Elems(inc), u);
  }

  lemma {:induction false} SeatAll(inc: seq<Entry>, k: nat, lim: Limits)
    requires NoDup(inc) && k <= |inc| <= lim.maxActive && WithinCap(Elems(inc), lim)
    ensures Seat(inc[..k], lim) == inc[..k]
  {
    if k > 0 {
      UnderAtPrefix(inc, k - 1, lim);
      SeatAll(inc, k - 1, lim);
      assert inc[..k][..k - 1] == inc[..k - 1];
    }
  }

  lemma {:induction false} FillPacked(inc: seq<Entry>, waiting: seq<Entry>, lim: Limits)
    requires NoDup(inc) && NoDup(waiting) && Elems(inc) !! Elems(waiting) && Slack(lim) && lim.maxActive > 0
    ensures Packed(Fill(inc, waiting, lim), Elems(inc) + Elems(waiting), lim)
  {
    if waiting == [] {
      SeatIsPrefix(inc, lim);
      assert Elems(inc) + Elems(waiting) == Elems(inc);
      assert |inc| <= lim.maxActive ==> Seat(inc, lim) == inc;
      assert forall a | a in Seat(inc, lim) :: a in inc;
    } else {
      var init, e := waiting[..|waiting| - 1], waiting[|waiting| - 1];
      var all, active := Elems(inc) + Elems(init), Fill(inc, init, lim);
      assert Elems(waiting) == Elems(init) + {e} && e !in Elems(init) && e !in Elems(inc);
      FillPacked(inc, init, lim);
      SlackAdmits(active, e.rep.userId, lim);
      if Preempt(active, e, lim) != active {
        ElemsOfUpdate(active, WeakestIncumbent(active), e);
      }
      assert Elems(active + [e]) == Elems(active) + {e};
      assert all + {e} == Elems(inc) + Elems(waiting);
    }
  }

  /** A waiting group once admitted is never preempted in the same pass. */
  lemma {:induction false} AdmittedStays(inc: seq<Entry>, waiting: seq<Entry>, lim: Limits, k: nat, w: Entry)
    requires k <= |waiting| && !Incumbent(w) && w in Fill(inc, waiting[..k], lim)
    ensures w in Fill(inc, waiting, lim)
    decreases |waiting| - k
  {
    if k == |waiting| {
      assert waiting[..k] == waiting;
    } else {
      var active, e := Fill(inc, waiting[..k], lim), waiting[k];
      assert waiting[..k + 1][..k] == waiting[..k];
      var i :| 0 <= i < |active| && active[i] == w;
      assert i < |Fill(inc, waiting[..k + 1], lim)| && Fill(inc, waiting[..k + 1], lim)[i] == w;
      AdmittedStays(inc, waiting, lim, k + 1, w);
    }
  }

  /** With all slots taken, a first waiter under its cap gets in over any weaker incumbent. */
  lemma HeadGetsIn(inc: seq<Entry>, waiting: seq<Entry>, lim: Limits, weaker: Entry)
    requires waiting != [] && !Incumbent(waiting[0])
    requires !Room(Seat(inc, lim), lim) && Under(Seat(inc, lim), waiting[0].rep.userId, lim)
    requires weaker in Seat(inc, lim) && Incumbent(weaker) && Base(weaker) < Base(waiting[0])
    ensures waiting[0] in Fill(inc, waiting, lim)
  {
    var active, h := Seat(inc, lim), waiting[0];
    assert waiting[..1] == [h] && [h][..0] == [];
    var w := WeakestIncumbent(active);
    assert Fill(inc, waiting[..1], lim) == active[w := h];
    assert active[w := h][w] == h;
    AdmittedStays(inc, waiting, lim, 1, h);
  }
}
