/** The settings under which every plan is optimal and settled at once: exactly the good ones. */
module SettingsLaw {
  import opened Ranking
  import opened Scheduler
  import opened PlanLaws
  import opened AgingLimits
  import opened CapLimits

  ghost predicate AlwaysOptimal(st: Settings) {
    forall items, now | DistinctIds(items) :: Optimal(items, st, now)
  }

  ghost predicate AlwaysOptimalUnderCap(st: Settings) {
    forall items, now | DistinctIds(items) :: OptimalUnderCap(items, st, now)
  }

  /** One pass is enough: whatever the table and the instant, the next pass plans the same. */
  ghost predicate AlwaysStable(st: Settings) {
    forall items, now | DistinctIds(items) :: Stable(items, st, now)
  }

  lemma BadSettingsFail(st: Settings) returns (items: seq<Download>)
    requires !GoodSettings(st)
    ensures DistinctIds(items) && !Optimal(items, st, 0) && !OptimalUnderCap(items, st, 0) && !Stable(items, st, 0)
  {
    var m := LimitsOf(st).maxActive;
    if !Slack(LimitsOf(st)) {
      items := CappedRows(st.perUserMax, m - st.perUserMax);
      CapInvertsTiers(st, 0);
      CapNeedsAnotherPass(st, 0);
    } else {
      items := AgedRows(m, st, 0);
      AgingInvertsTiers(st, 0);
      AgingNeedsAnotherPass(st, 0);
    }
  }

  /**
    * Every plan is optimal, even with groups of users at their cap set aside, and every plan is a fixpoint after one
    * pass, under exactly the same settings: those whose per-user cap cannot bind and whose aging stays within a
    * priority tier.
    */
  lemma ExactSettings(st: Settings)
    ensures AlwaysOptimal(st) <==> GoodSettings(st)
    ensures AlwaysOptimalUnderCap(st) <==> GoodSettings(st)
    ensures AlwaysStable(st) <==> GoodSettings(st)
  {
    if GoodSettings(st) {
      forall items, now | DistinctIds(items) ensures Optimal(items, st, now) {
        GoodSettingsChooseBest(items, st, now);
      }
      forall items, now | DistinctIds(items) ensures OptimalUnderCap(items, st, now) {
        OptimalEitherWay(items, st, now);
      }
      forall items, now | DistinctIds(items) ensures Stable(items, st, now) {
        GoodSettingsStable(items, st, now);
      }
    } else {
      var items := BadSettingsFail(st);
    }
  }
}
