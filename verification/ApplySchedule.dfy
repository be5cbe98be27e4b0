/** Enforcing a plan on the table, while other requests keep changing rows between the batches. */
module ApplySchedule {
  import opened Sorting
  import opened Ranking
  import opened Grouping
  import opened SlotFiller
  import opened Scheduler
  import opened SlotCount
  import opened PlanLaws
  import opened Store
  import opened Requests

  /** `items` lists the queued and downloading rows, in any order. */
  ghost predicate Lists(items: seq<Download>, rows: Table) {
    && DistinctIds(items)
    && forall d :: d in items <==> d.id in rows && rows[d.id] == d && (d.status == Queued || d.status == Downloading)
  }

  datatype Batch = Batch(ids: seq<int>, change: Change)

  /** The ids of the members a group promotes, or preempts, in member order. */
  function IdsToFlip(members: seq<Download>, plan: set<int>, promote: bool): (ids: seq<int>)
    ensures forall id :: id in ids <==> exists m <- members :: m.id == id && (m.id in plan) == promote
                                                              && m.status == if promote then Queued else Downloading
  {
    if members == [] then []
    else
      var init, m := members[..|members| - 1], members[|members| - 1];
      assert members == init + [m];
      var ids := IdsToFlip(init, plan, promote);
      if (m.id in plan) == promote && m.status == (if promote then Queued else Downloading) then ids + [m.id] else ids
  }

  function BatchesFor(g: Group, plan: set<int>, at: int): seq<Batch> {
    [Batch(IdsToFlip(g.members, plan, true), Promote), Batch(IdsToFlip(g.members, plan, false), Preempt(at))]
  }

  function Batches(gs: seq<Group>, plan: set<int>, at: int): seq<Batch> {
    if gs == [] then [] else Batches(gs[..|gs| - 1], plan, at) + BatchesFor(gs[|gs| - 1], plan, at)
  }

  /** The table after the batches, of which those marked in `commits` went through. */
  function Run(rows: Table, bs: seq<Batch>, commits: seq<bool>): Table
    requires |bs| == |commits|
  {
    if bs == [] then rows
    else
      var n := |bs| - 1;
      var before := Run(rows, bs[..n], commits[..n]);
      if commits[n] then Guarded(before, bs[n].ids, bs[n].change) else before
  }

  lemma {:induction false} RunConcat(rows: Table, bs: seq<Batch>, bc: seq<bool>, cs: seq<Batch>, cc: seq<bool>)
    requires |bs| == |bc| && |cs| == |cc|
    ensures Run(rows, bs + cs, bc + cc) == Run(Run(rows, bs, bc), cs, cc)
  {
    if cs == [] {
      assert bs + cs == bs && bc + cc == bc;
    } else {
      var n := |cs| - 1;
      RunConcat(rows, bs, bc, cs[..n], cc[..n]);
      assert (bs + cs)[..|bs| + n] == bs + cs[..n] && (bc + cc)[..|bs| + n] == bc + cc[..n];
    }
  }

  /** Promotes the queued members the plan wants and preempts the running ones it dropped; `commits` tells which took effect. */
  method ApplyGroupSchedule(db: Database, g: Group, plan: set<int>, at: int) returns (ghost commits: seq<bool>)
    modifies db
    ensures |commits| == 2 && db.rows == Run(old(db.rows), BatchesFor(g, plan, at), commits)
  {
    var promote, preempt: seq<int> := [], [];
    for i := 0 to |g.members|
      invariant promote == IdsToFlip(g.members[..i], plan, true)
      invariant preempt == IdsToFlip(g.members[..i], plan, false)
    {
      var m := g.members[i];
      assert g.members[..i + 1][..i] == g.members[..i];
      if m.id in plan && m.status == Queued {
        promote := promote + [m.id];
      } else if m.id !in plan && m.status == Downloading {
        preempt := preempt + [m.id];
      }
    }
    assert g.members[..|g.members|] == g.members;
    ghost var rows, bs := db.rows, BatchesFor(g, plan, at);
    ghost var took1, took2 := true, true;
    var faults: set<nat> := *;
    if |promote| > 0 {
      var _, _, took := db.TxGuardedStatus(promote, Promote, faults);
      took1 := took;
    }
    assert db.rows == if took1 then Guarded(rows, promote, Promote) else rows;
    ghost var mid := db.rows;
    faults := *;
    if |preempt| > 0 {
      var _, _, took := db.TxGuardedStatus(preempt, Preempt(at), faults);
      took2 := took;
    }
    assert db.rows == if took2 then Guarded(mid, preempt, Preempt(at)) else mid;
    commits := [took1, took2];
    RunTwo(rows, bs, commits);
  }

  lemma RunTwo(rows: Table, bs: seq<Batch>, commits: seq<bool>)
    requires |bs| == |commits| == 2
    ensures var mid := if commits[0] then Guarded(rows, bs[0].ids, bs[0].change) else rows;
            Run(rows, bs, commits) == if commits[1] then Guarded(mid, bs[1].ids, bs[1].change) else mid
  {
    assert bs[..1][..0] == [] && commits[..1][..0] == [];
    assert Run(rows, bs[..1], commits[..1]) == if commits[0] then Guarded(rows, bs[0].ids, bs[0].change) else rows;
  }

  lemma BatchesStep(gs: seq<Group>, i: nat, plan: set<int>, at: int)
    requires i < |gs|
    ensures Batches(gs[..i + 1], plan, at) == Batches(gs[..i], plan, at) + BatchesFor(gs[i], plan, at)
  {
    assert gs[..i + 1][..i] == gs[..i];
  }

  /** One scheduling tick without interference: plan from the listed rows, then group by group the batches. */
  method ApplyTo(db: Database, schedulable: seq<Download>, st: Settings, now: int, at: int)
    returns (ghost commits: seq<bool>)
    requires DistinctIds(schedulable)
    modifies db
    ensures var bs := Batches(Groups(schedulable), Plan(schedulable, st, now), at);
            |commits| == |bs| && db.rows == Run(old(db.rows), bs, commits)
  {
    var plan := SchedulePlan(schedulable, st, now);
    var groups := GroupRows(schedulable);
    commits := [];
    ghost var rows := db.rows;
    for i := 0 to |groups|
      invariant |commits| == |Batches(groups[..i], plan, at)|
      invariant db.rows == Run(rows, Batches(groups[..i], plan, at), commits)
    {
      var c := ApplyGroupSchedule(db, groups[i], plan, at);
      BatchesStep(groups, i, plan, at);
      RunConcat(rows, Batches(groups[..i], plan, at), commits, BatchesFor(groups[i], plan, at), c);
      commits := commits + c;
    }
    assert groups[..|groups|] == groups;
  }

  // ---- Interference ----

  /** A tick in progress: the batches still to run, and the rows started past the queue or rolled back. */
  datatype State = State(rows: Table, todo: seq<Batch>, started: set<int>, rolledBack: set<int>)

  ghost predicate ActStep(s: State, a: Act, t: State) {
    && Enabled(a, s.rows)
    && t == s.(rows := Do(a, s.rows), started := s.started + if a.StartNow? then {a.id} else {})
  }

  ghost predicate BatchStep(s: State, commit: bool, t: State) {
    && s.todo != []
    && t == if commit then s.(rows := Guarded(s.rows, s.todo[0].ids, s.todo[0].change), todo := s.todo[1..])
            else s.(todo := s.todo[1..], rolledBack := s.rolledBack + Elems(s.todo[0].ids))
  }

  ghost predicate Step(s: State, t: State) {
    (exists a :: ActStep(s, a, t)) || (exists commit :: BatchStep(s, commit, t))
  }

  /** A run from the moment the rows were listed: any interleaving of batches and other requests. */
  ghost predicate IsRun(run: seq<State>, rows: Table, items: seq<Download>, st: Settings, now: int, at: int) {
    && run != []
    && run[0] == State(rows, Batches(Groups(items), Plan(items, st, now), at), {}, {})
    && forall i | 0 <= i < |run| - 1 :: Step(run[i], run[i + 1])
  }

  /** The row waits in one of the batches to be preempted. */
  ghost predicate ToPreempt(todo: seq<Batch>, id: int) {
    exists b <- todo :: b.change.Preempt? && id in b.ids
  }

  /** Every downloading row is planned, was started past the queue or rolled back, or is yet to be preempted. */
  ghost predicate Accounted(s: State, plan: set<int>) {
    && (forall b <- s.todo :: (b.change.Promote? && Elems(b.ids) <= plan) || b.change.Preempt?)
    && forall id | id in s.rows && s.rows[id].status == Downloading ::
         id in plan || id in s.started || id in s.rolledBack || ToPreempt(s.todo, id)
  }

  lemma ActAccounted(s: State, a: Act, t: State, plan: set<int>)
    requires Accounted(s, plan) && ActStep(s, a, t)
    ensures Accounted(t, plan)
  {
    forall id | id in t.rows && t.rows[id].status == Downloading
      ensures id in plan || id in t.started || id in t.rolledBack || ToPreempt(t.todo, id)
    {
      assert (a.StartNow? && id == a.id) || (id in s.rows && s.rows[id].status == Downloading);
    }
  }

  lemma BatchAccounted(s: State, commit: bool, t: State, plan: set<int>)
    requires Accounted(s, plan) && BatchStep(s, commit, t)
    ensures Accounted(t, plan)
  {
    var b := s.todo[0];
    assert b in s.todo;
    forall id | id in t.rows && t.rows[id].status == Downloading
      ensures id in plan || id in t.started || id in t.rolledBack || ToPreempt(t.todo, id)
    {
      if s.rows[id].status == Downloading && ToPreempt(s.todo, id) {
        var c :| c in s.todo && c.change.Preempt? && id in c.ids;
        assert c == b || c in s.todo[1..];
        assert id in c.ids ==> id in Elems(c.ids);
      } else if s.rows[id].status != Downloading {
        assert id in b.ids && id in Elems(b.ids);
      }
    }
  }

  lemma {:induction false} RunAccounted(run: seq<State>, rows: Table, items: seq<Download>, st: Settings, now: int, at: int,
                                        i: nat)
    requires IsRun(run, rows, items, st, now, at) && i < |run|
    requires Lists(items, rows) && WellKeyed(rows)
    ensures Accounted(run[i], Plan(items, st, now))
  {
    var plan := Plan(items, st, now);
    if i == 0 {
      StartAccounted(rows, items, plan, at);
    } else {
      RunAccounted(run, rows, items, st, now, at, i - 1);
      var s, t := run[i - 1], run[i];
      assert Step(s, t);
      if exists a :: ActStep(s, a, t) {
        var a :| ActStep(s, a, t);
        ActAccounted(s, a, t, plan);
      } else {
        var commit :| BatchStep(s, commit, t);
        BatchAccounted(s, commit, t, plan);
      }
    }
  }

  lemma {:induction false} BatchOf(gs: seq<Group>, plan: set<int>, at: int, b: Batch)
    ensures b in Batches(gs, plan, at) <==> exists g <- gs :: b in BatchesFor(g, plan, at)
  {
    if gs != [] {
      BatchOf(gs[..|gs| - 1], plan, at, b);
      assert gs == gs[..|gs| - 1] + [gs[|gs| - 1]];
    }
  }

  lemma StartAccounted(rows: Table, items: seq<Download>, plan: set<int>, at: int)
    requires Lists(items, rows) && WellKeyed(rows)
    ensures Accounted(State(rows, Batches(Groups(items), plan, at), {}, {}), plan)
  {
    var gs := Groups(items);
    var todo := Batches(gs, plan, at);
    forall b | b in todo ensures (b.change.Promote? && Elems(b.ids) <= plan) || b.change.Preempt? {
      BatchOf(gs, plan, at, b);
    }
    forall id | id in rows && rows[id].status == Downloading && id !in plan ensures ToPreempt(todo, id) {
      var d := rows[id];
      DownloadingIsBatched(rows, items, plan, at, d);
    }
  }

  lemma DownloadingIsBatched(rows: Table, items: seq<Download>, plan: set<int>, at: int, d: Download)
    requires d in items && d.status == Downloading && d.id !in plan
    ensures ToPreempt(Batches(Groups(items), plan, at), d.id)
  {
    var k := KeyOf(d);
    assert d in MembersOf(items, k);
    KeysExact(items, k);
    var i :| 0 <= i < |Keys(items)| && Keys(items)[i] == k;
    var g := Groups(items)[i];
    var b := Batch(IdsToFlip(g.members, plan, false), Preempt(at));
    assert b == BatchesFor(g, plan, at)[1];
    BatchOf(Groups(items), plan, at, b);
  }

  /** The listed groups with a row downloading now, apart from the rows in `except`. */
  ghost function RunningGroups(s: State, items: seq<Download>, st: Settings, now: int, except: set<int>): set<Entry> {
    set e | e in AllEntries(items, st, now) && exists id :: id in Ids(e) - except && id in s.rows && s.rows[id].status == Downloading
  }

  lemma RunningIsChosen(s: State, items: seq<Download>, st: Settings, now: int, except: set<int>)
    requires DistinctIds(items)
    requires forall id | id in s.rows && s.rows[id].status == Downloading && id !in except :: id in Plan(items, st, now)
    ensures RunningGroups(s, items, st, now, except) <= Elems(Chosen(items, st, now))
    ensures forall id | id in s.rows && s.rows[id].status == Downloading && id !in except ::
              exists e :: e in RunningGroups(s, items, st, now, except) && id in Ids(e)
  {
    var running, chosen := RunningGroups(s, items, st, now, except), Chosen(items, st, now);
    ChosenAreEntries(items, st, now);
    forall id | id in s.rows && s.rows[id].status == Downloading && id !in except
      ensures exists e :: e in running && id in Ids(e)
    {
      var e, m :| e in chosen && m in e.group.members && m.id == id;
      assert id in Ids(e) - except && e in running;
    }
    forall e | e in running ensures e in Elems(chosen) {
      PlanIsGroupAtomic(items, st, now, e);
      var id :| id in Ids(e) - except && id in s.rows && s.rows[id].status == Downloading;
    }
  }

  lemma WithinLimits(some: set<Entry>, items: seq<Download>, st: Settings, now: int)
    requires DistinctIds(items) && some <= Elems(Chosen(items, st, now))
    ensures |some| <= if st.maxActive > 0 then st.maxActive else 3
    ensures st.perUserMax > 0 ==> forall u :: UserCount(some, u) <= st.perUserMax
  {
    var chosen := Chosen(items, st, now);
    SlotsExactlyFilled(items, st, now);
    SubsetCount(some, Elems(chosen));
    ElemsCardinality(chosen);
    forall u ensures UserCount(some, u) <= UserCount(Elems(chosen), u) {
      SubsetCount(OfUser(some, u), OfUser(Elems(chosen), u));
    }
  }

  /**
    * However other requests interleave with a tick, when its last batch has run every downloading row is
    * planned, unless it was started past the queue or its own batch was rolled back. So apart from those,
    * the downloading rows belong to at most `maxActive` groups, and to at most `perUserMax` of any user.
    */
  lemma LimitsHoldUnderInterference(run: seq<State>, rows: Table, items: seq<Download>, st: Settings, now: int, at: int)
    requires IsRun(run, rows, items, st, now, at) && Lists(items, rows) && WellKeyed(rows)
    requires run[|run| - 1].todo == []
    ensures var s := run[|run| - 1]; var except := s.started + s.rolledBack;
            var running := RunningGroups(s, items, st, now, except);
            && (forall id | id in s.rows && s.rows[id].status == Downloading && id !in except ::
                  exists e :: e in running && id in Ids(e))
            && |running| <= (if st.maxActive > 0 then st.maxActive else 3)
            && (st.perUserMax > 0 ==> forall u :: UserCount(running, u) <= st.perUserMax)
  {
    var s := run[|run| - 1];
    var except := s.started + s.rolledBack;
    RunAccounted(run, rows, items, st, now, at, |run| - 1);
    RunningIsChosen(s, items, st, now, except);
    WithinLimits(RunningGroups(s, items, st, now, except), items, st, now);
  }

  // ---- A tick without interference ----

  lemma {:induction false} Untouched(rows: Table, bs: seq<Batch>, commits: seq<bool>, id: int)
    requires |bs| == |commits| && id in rows
    requires forall b <- bs :: id !in b.ids
    ensures id in Run(rows, bs, commits) && Run(rows, bs, commits)[id] == rows[id]
  {
    if bs != [] {
      assert bs[|bs| - 1] in bs;
      Untouched(rows, bs[..|bs| - 1], commits[..|bs| - 1], id);
    }
  }

  /** The two batches of a row's group leave the row as the plan wants it. */
  lemma GroupEnforced(rows: Table, g: Group, plan: set<int>, at: int, r: Download)
    requires r.id in rows && rows[r.id] == r && r in g.members
    requires forall m <- g.members :: m.id == r.id ==> m == r
    requires r.status == Queued || r.status == Downloading
    ensures var after := Run(rows, BatchesFor(g, plan, at), [true, true]);
            r.id in after && after[r.id] == Landed(r, plan, at)
  {
    var bs := BatchesFor(g, plan, at);
    RunTwo(rows, bs, [true, true]);
    assert r.id in bs[0].ids <==> r.id in plan && r.status == Queued;
    assert r.id in bs[1].ids <==> r.id !in plan && r.status == Downloading;
  }

  lemma {:induction false} BatchesConcat(fs: seq<Group>, gs: seq<Group>, plan: set<int>, at: int)
    ensures Batches(fs + gs, plan, at) == Batches(fs, plan, at) + Batches(gs, plan, at)
  {
    if gs == [] {
      assert fs + gs == fs;
    } else {
      var init, last := gs[..|gs| - 1], gs[|gs| - 1];
      BatchesConcat(fs, init, plan, at);
      assert (fs + gs)[..|fs + gs| - 1] == fs + init && (fs + gs)[|fs + gs| - 1] == last;
      assert Batches(fs + gs, plan, at) == Batches(fs + init, plan, at) + BatchesFor(last, plan, at);
    }
  }

  lemma OthersBatches(gs: seq<Group>, plan: set<int>, at: int, id: int)
    requires forall g, m | g in gs && m in g.members :: m.id != id
    ensures forall b <- Batches(gs, plan, at) :: id !in b.ids
  {
    forall b | b in Batches(gs, plan, at) ensures id !in b.ids {
      BatchOf(gs, plan, at, b);
    }
  }

  lemma RunInThree(rows: Table, b1: seq<Batch>, c1: seq<bool>, b2: seq<Batch>, c2: seq<bool>, b3: seq<Batch>, c3: seq<bool>)
    requires |b1| == |c1| && |b2| == |c2| && |b3| == |c3|
    ensures Run(rows, b1 + (b2 + b3), c1 + (c2 + c3)) == Run(Run(Run(rows, b1, c1), b2, c2), b3, c3)
  {
    RunConcat(rows, b1, c1, b2 + b3, c2 + c3);
    RunConcat(Run(rows, b1, c1), b2, c2, b3, c3);
  }

  /** Batches that leave a row alone, before and after those of its group, committed or not, do not matter to it. */
  lemma MiddleEnforced(rows: Table, before: seq<Batch>, c1: seq<bool>, g: Group, after: seq<Batch>, c3: seq<bool>,
                       bs: seq<Batch>, commits: seq<bool>, plan: set<int>, at: int, r: Download)
    requires |before| == |c1| && |after| == |c3|
    requires bs == before + (BatchesFor(g, plan, at) + after) && commits == c1 + ([true, true] + c3)
    requires r.id in rows && rows[r.id] == r && r in g.members
    requires forall m <- g.members :: m.id == r.id ==> m == r
    requires r.status == Queued || r.status == Downloading
    requires (forall b <- before :: r.id !in b.ids) && (forall b <- after :: r.id !in b.ids)
    ensures var end := Run(rows, bs, commits);
            r.id in end && end[r.id] == Landed(r, plan, at)
  {
    var own := BatchesFor(g, plan, at);
    Untouched(rows, before, c1, r.id);
    var mid := Run(rows, before, c1);
    GroupEnforced(mid, g, plan, at, r);
    Untouched(Run(mid, own, [true, true]), after, c3, r.id);
    RunInThree(rows, before, c1, own, [true, true], after, c3);
  }

  lemma RowInOneGroup(items: seq<Download>, i: nat, r: Download)
    requires DistinctIds(items) && i < |Groups(items)| && r in items && KeyOf(r) == Keys(items)[i]
    ensures r in Groups(items)[i].members
    ensures forall m <- Groups(items)[i].members :: m.id == r.id ==> m == r
    ensures forall j, m | 0 <= j < |Groups(items)| && j != i && m in Groups(items)[j].members :: m.id != r.id
  {
    forall j, m | 0 <= j < |Groups(items)| && m in Groups(items)[j].members && m.id == r.id ensures m == r && j == i {
      SameIdSameRow(items, m, r);
    }
  }

  /** Every batch of the plan goes through. */
  ghost predicate AllCommit(items: seq<Download>, plan: set<int>, at: int, commits: seq<bool>) {
    |commits| == |Batches(Groups(items), plan, at)| && false !in commits
  }

  /** The table after an undisturbed tick whose batches commit. */
  ghost function Settled(rows: Table, items: seq<Download>, plan: set<int>, at: int, commits: seq<bool>): Table
    requires AllCommit(items, plan, at, commits)
  {
    Run(rows, Batches(Groups(items), plan, at), commits)
  }

  lemma CommitsAround(commits: seq<bool>, m: nat)
    requires m + 2 <= |commits| && false !in commits
    ensures commits == commits[..m] + ([true, true] + commits[m + 2..])
  {
    assert commits[m] in commits && commits[m + 1] in commits;
    assert commits[m] == true && commits[m + 1] == true;
  }

  /** A row of the i-th group, and of no other, ends as the plan wants it. */
  lemma MemberEnforced(rows: Table, gs: seq<Group>, i: nat, plan: set<int>, at: int, commits: seq<bool>, r: Download)
    requires |commits| == |Batches(gs, plan, at)| && false !in commits && i < |gs|
    requires r.id in rows && rows[r.id] == r && (r.status == Queued || r.status == Downloading)
    requires r in gs[i].members && forall m <- gs[i].members :: m.id == r.id ==> m == r
    requires forall g, m | g in gs[..i] && m in g.members :: m.id != r.id
    requires forall g, m | g in gs[i + 1..] && m in g.members :: m.id != r.id
    ensures var after := Run(rows, Batches(gs, plan, at), commits);
            r.id in after && after[r.id] == Landed(r, plan, at)
  {
    var pre, post := Batches(gs[..i], plan, at), Batches(gs[i + 1..], plan, at);
    OthersBatches(gs[..i], plan, at, r.id);
    OthersBatches(gs[i + 1..], plan, at, r.id);
    AroundGroup(gs, i, plan, at);
    var bs := Batches(gs, plan, at);
    CommitsAround(commits, |pre|);
    MiddleEnforced(rows, pre, commits[..|pre|], gs[i], post, commits[|pre| + 2..], bs, commits, plan, at, r);
  }

  /** When every batch commits and nobody interferes, each listed row ends as the plan wants it. */
  lemma RowEnforced(rows: Table, items: seq<Download>, plan: set<int>, at: int, commits: seq<bool>, r: Download)
    requires Lists(items, rows) && WellKeyed(rows) && r in items && AllCommit(items, plan, at, commits)
    ensures var after := Settled(rows, items, plan, at, commits);
            r.id in after && after[r.id] == Landed(r, plan, at)
  {
    var k := KeyOf(r);
    assert r in MembersOf(items, k);
    KeysExact(items, k);
    var i :| 0 <= i < |Keys(items)| && Keys(items)[i] == k;
    RowInOneGroup(items, i, r);
    MemberEnforced(rows, Groups(items), i, plan, at, commits, r);
  }

  lemma AroundGroup(gs: seq<Group>, i: nat, plan: set<int>, at: int)
    requires i < |gs|
    ensures Batches(gs, plan, at) == Batches(gs[..i], plan, at) + (BatchesFor(gs[i], plan, at) + Batches(gs[i + 1..], plan, at))
  {
    var own := [gs[i]];
    assert gs == gs[..i] + (own + gs[i + 1..]);
    BatchesConcat(gs[..i], own + gs[i + 1..], plan, at);
    BatchesConcat(own, gs[i + 1..], plan, at);
    assert own[..0] == [] && Batches(own, plan, at) == BatchesFor(gs[i], plan, at);
  }

  /** Rows neither queued nor downloading are in no batch. */
  lemma RowSpared(rows: Table, items: seq<Download>, plan: set<int>, at: int, commits: seq<bool>, id: int)
    requires Lists(items, rows) && WellKeyed(rows) && id in rows && AllCommit(items, plan, at, commits)
    requires rows[id].status != Queued && rows[id].status != Downloading
    ensures var after := Settled(rows, items, plan, at, commits);
            id in after && after[id] == rows[id]
  {
    var bs := Batches(Groups(items), plan, at);
    forall g, m | g in Groups(items) && m in g.members ensures m.id != id {
      assert m in items;
    }
    OthersBatches(Groups(items), plan, at, id);
    Untouched(rows, bs, commits, id);
  }

  lemma {:induction false} RunKeys(rows: Table, bs: seq<Batch>, commits: seq<bool>)
    requires |bs| == |commits|
    ensures Run(rows, bs, commits).Keys == rows.Keys
    ensures WellKeyed(rows) ==> WellKeyed(Run(rows, bs, commits))
  {
    if bs != [] {
      RunKeys(rows, bs[..|bs| - 1], commits[..|bs| - 1]);
    }
  }

  lemma SameIdsListed(rows: Table, items: seq<Download>, plan: set<int>, at: int, commits: seq<bool>, again: seq<Download>)
    requires AllCommit(items, plan, at, commits)
    requires Lists(items, rows) && WellKeyed(rows) && Lists(again, Settled(rows, items, plan, at, commits))
    ensures RowIds(items) == RowIds(again)
  {
    var bs := Batches(Groups(items), plan, at);
    RunKeys(rows, bs, commits);
    forall id | id in RowIds(items) ensures id in RowIds(again) {
      var r :| r in items && r.id == id;
      RowEnforced(rows, items, plan, at, commits, r);
      LandedCarried(r, plan, at);
      assert Settled(rows, items, plan, at, commits)[id] in again;
    }
    forall id | id in RowIds(again) ensures id in RowIds(items) {
      var s :| s in again && s.id == id;
      SpareOrListed(rows, items, plan, at, commits, id);
    }
  }

  lemma QuietTickApplies(rows: Table, items: seq<Download>, plan: set<int>, at: int, commits: seq<bool>, again: seq<Download>)
    requires AllCommit(items, plan, at, commits)
    requires Lists(items, rows) && WellKeyed(rows) && Lists(again, Settled(rows, items, plan, at, commits))
    ensures Applied(items, plan, again)
  {
    SameIdsListed(rows, items, plan, at, commits, again);
    forall r, s | r in items && s in again && r.id == s.id ensures Carried(r, s, plan) {
      RowEnforced(rows, items, plan, at, commits, r);
      LandedCarried(r, plan, at);
    }
  }

  /** The schedulable rows after an undisturbed tick are those before it, each as its batch left it. */
  lemma SettledLists(rows: Table, items: seq<Download>, plan: set<int>, at: int, commits: seq<bool>)
    requires Lists(items, rows) && WellKeyed(rows) && AllCommit(items, plan, at, commits)
    ensures Lists(AllLanded(items, plan, at), Settled(rows, items, plan, at, commits))
  {
    LandedApplied(items, plan, at);
    forall d: Download
      ensures d in AllLanded(items, plan, at) <==>
              var after := Settled(rows, items, plan, at, commits);
              d.id in after && after[d.id] == d && (d.status == Queued || d.status == Downloading)
    {
      if d in AllLanded(items, plan, at) {
        LandedListed(rows, items, plan, at, commits, d);
      } else {
        ListedLanded(rows, items, plan, at, commits, d);
      }
    }
  }

  lemma LandedListed(rows: Table, items: seq<Download>, plan: set<int>, at: int, commits: seq<bool>, d: Download)
    requires Lists(items, rows) && WellKeyed(rows) && AllCommit(items, plan, at, commits)
    requires d in AllLanded(items, plan, at)
    ensures var after := Settled(rows, items, plan, at, commits);
      d.id in after && after[d.id] == d && (d.status == Queued || d.status == Downloading)
  {
    var i :| 0 <= i < |items| && d == Landed(items[i], plan, at);
    assert items[i] in items;
    RowEnforced(rows, items, plan, at, commits, items[i]);
  }

  lemma ListedLanded(rows: Table, items: seq<Download>, plan: set<int>, at: int, commits: seq<bool>, d: Download)
    requires Lists(items, rows) && WellKeyed(rows) && AllCommit(items, plan, at, commits)
    ensures var after := Settled(rows, items, plan, at, commits);
      d.id in after && after[d.id] == d && (d.status == Queued || d.status == Downloading) ==> d in AllLanded(items, plan, at)
  {
    var after := Settled(rows, items, plan, at, commits);
    RunKeys(rows, Batches(Groups(items), plan, at), commits);
    if d.id in after && after[d.id] == d && (d.status == Queued || d.status == Downloading) {
      SpareOrListed(rows, items, plan, at, commits, d.id);
      var r :| r in items && r.id == d.id;
      RowEnforced(rows, items, plan, at, commits, r);
      var i :| 0 <= i < |items| && items[i] == r;
      assert AllLanded(items, plan, at)[i] == d;
    }
  }

  /**
    * A tick whose batches commit, undisturbed, leaves the schedulable rows exactly as the plan wants them;
    * so under good settings the next tick, whenever it runs, plans the same rows again.
    */
  lemma QuietTickSettles(rows: Table, items: seq<Download>, st: Settings, now: int, at: int, commits: seq<bool>,
                         again: seq<Download>, later: int)
    requires Lists(items, rows) && WellKeyed(rows)
    requires AllCommit(items, Plan(items, st, now), at, commits)
    requires Lists(again, Settled(rows, items, Plan(items, st, now), at, commits))
    ensures Applied(items, Plan(items, st, now), again)
    ensures GoodSettings(st) ==> Plan(again, st, later) == Plan(items, st, now)
  {
    QuietTickApplies(rows, items, Plan(items, st, now), at, commits, again);
    if GoodSettings(st) {
      GoodSettingsStable(items, st, now);
    }
  }

  lemma SpareOrListed(rows: Table, items: seq<Download>, plan: set<int>, at: int, commits: seq<bool>, id: int)
    requires Lists(items, rows) && WellKeyed(rows) && id in rows && AllCommit(items, plan, at, commits)
    ensures var after := Settled(rows, items, plan, at, commits);
            id in RowIds(items) || (id in after && after[id].status != Queued && after[id].status != Downloading)
  {
    if rows[id].status == Queued || rows[id].status == Downloading {
      assert rows[id] in items;
    } else {
      RowSpared(rows, items, plan, at, commits, id);
    }
  }
}
