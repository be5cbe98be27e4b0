/** Handing a completed multi-file torrent to its move. */
module Completion {
  import opened Sorting
  import opened Ranking
  import opened Grouping
  import opened Store
  import opened Requests

  /** What a tracked download is after: one file, or all of the torrent. */
  datatype Target = File(path: string, length: int, completed: int) | Whole(length: int, completed: int)

  type Tracked = map<int, Target>

  predicate OnDisk(t: Target) {
    t.length > 0 && t.completed >= t.length
  }

  predicate MemberComplete(m: Download, tracked: Tracked) {
    m.id in tracked && OnDisk(tracked[m.id])
  }

  /** The row still wants the data of the user's torrent `hash`. */
  predicate Wants(r: Download, userId: int, hash: string) {
    r.userId == userId && r.infoHash == hash && (r.status == Queued || r.status == Downloading)
  }

  predicate IsMember(members: seq<Download>, id: int) {
    exists m <- members :: m.id == id
  }

  /** The row is for one file, outside the group, and still wants the group's torrent. */
  ghost predicate Outsider(rows: Table, g: Group, id: int)
    requires g.members != []
  {
    && id in rows && Wants(rows[id], g.members[0].userId, g.members[0].infoHash)
    && rows[id].fileIndex != WHOLE_TORRENT && !IsMember(g.members, rows[id].id)
  }

  /** Every member has its bytes, and no per-file row outside the group still wants the torrent. */
  ghost predicate Eligible(rows: Table, g: Group, tracked: Tracked)
    requires g.members != []
  {
    && (forall m <- g.members :: MemberComplete(m, tracked))
    && (g.members[0].infoHash != "" ==> forall id :: !Outsider(rows, g, id))
  }

  /** A row of the group's user and torrent, queued or downloading, for one file (whole torrents have index -2). */
  predicate Named(r: Download, g: Group)
    requires g.members != []
  {
    && r.userId == g.members[0].userId && r.infoHash == g.members[0].infoHash != ""
    && (r.status == Queued || r.status == Downloading) && r.fileIndex != -2
  }

  lemma EligibleMeans(rows: Table, g: Group, tracked: Tracked)
    requires g.members != []
    ensures Eligible(rows, g, tracked) <==>
      && (forall m <- g.members :: m.id in tracked && tracked[m.id].length > 0 && tracked[m.id].completed >= tracked[m.id].length)
      && forall id | id in rows && Named(rows[id], g) :: exists m <- g.members :: m.id == rows[id].id
  {
    forall id | id in rows
      ensures Named(rows[id], g) && !(exists m <- g.members :: m.id == rows[id].id) <==>
              g.members[0].infoHash != "" && Outsider(rows, g, id)
    {
    }
  }

  method GroupAllComplete(g: Group, tracked: Tracked) returns (r: bool)
    ensures r <==> forall m <- g.members :: MemberComplete(m, tracked)
  {
    for i := 0 to |g.members|
      invariant forall m <- g.members[..i] :: MemberComplete(m, tracked)
    {
      var m := g.members[i];
      assert m in g.members && g.members[..i + 1] == g.members[..i] + [m];
      if m.id !in tracked {
        return false;
      }
      var t := tracked[m.id];
      if t.length <= 0 || t.completed < t.length {
        return false;
      }
    }
    assert g.members[..|g.members|] == g.members;
    return true;
  }

  method WantedRowsByHash(db: Database, userId: int, hash: string) returns (r: seq<Download>)
    ensures forall x :: x in r <==> exists id :: id in db.rows && db.rows[id] == x && Wants(x, userId, hash)
    ensures forall id | id in db.rows :: db.rows[id] in r <==>
      && db.rows[id].userId == userId && db.rows[id].infoHash == hash
      && (db.rows[id].status == Queued || db.rows[id].status == Downloading)
  {
    r := [];
    var ids := db.rows.Keys;
    while ids != {}
      invariant ids <= db.rows.Keys
      invariant forall x <- r :: exists id :: id in db.rows && db.rows[id] == x && Wants(x, userId, hash)
      invariant forall id | id in db.rows && id !in ids :: Wants(db.rows[id], userId, hash) ==> db.rows[id] in r
    {
      var id := PickAny(ids);
      if Wants(db.rows[id], userId, hash) {
        r := r + [db.rows[id]];
      }
      ids := ids - {id};
    }
  }

  /** `fault` tells that listing the siblings fails: then the group is not finalised. */
  method GroupCompletionEligible(db: Database, g: Group, tracked: Tracked, fault: bool) returns (r: bool)
    requires g.members != []
    ensures r ==> Eligible(db.rows, g, tracked)
    ensures !fault ==> r == Eligible(db.rows, g, tracked)
    ensures !fault ==> (r <==>
      && (forall m <- g.members :: m.id in tracked && tracked[m.id].length > 0 && tracked[m.id].completed >= tracked[m.id].length)
      && forall id | id in db.rows && Named(db.rows[id], g) :: exists m <- g.members :: m.id == db.rows[id].id)
  {
    EligibleMeans(db.rows, g, tracked);
    var complete := GroupAllComplete(g, tracked);
    if !complete {
      return false;
    }
    var hash := g.members[0].infoHash;
    if hash == "" {
      return true;
    }
    if fault {
      return false;
    }
    var siblings := WantedRowsByHash(db, g.members[0].userId, hash);
    for i := 0 to |siblings|
      invariant forall s <- siblings[..i] :: s.fileIndex == WHOLE_TORRENT || IsMember(g.members, s.id)
    {
      var s := siblings[i];
      if s.fileIndex != WHOLE_TORRENT && !IsMember(g.members, s.id) {
        assert s in siblings;
        var id :| id in db.rows && db.rows[id] == s && Wants(s, g.members[0].userId, hash);
        assert Outsider(db.rows, g, id);
        return false;
      }
    }
    assert siblings[..|siblings|] == siblings;
    forall id ensures !Outsider(db.rows, g, id) {
      assert id in db.rows && Wants(db.rows[id], g.members[0].userId, hash) ==> db.rows[id] in siblings;
    }
    return true;
  }

  // ---- The plan ----

  datatype Mover = Mover(row: Download, path: string, length: int)

  function Ids(members: seq<Download>): (r: seq<int>)
    ensures |r| == |members| && forall i | 0 <= i < |r| :: r[i] == members[i].id
  {
    if members == [] then [] else Ids(members[..|members| - 1]) + [members[|members| - 1].id]
  }

  /** The files of the members that made the transition. */
  function MovePlan(members: seq<Download>, moved: seq<int>, tracked: Tracked): seq<Mover> {
    if members == [] then []
    else
      var rest, m := MovePlan(members[..|members| - 1], moved, tracked), members[|members| - 1];
      if m.id in moved && m.id in tracked && tracked[m.id].File?
      then rest + [Mover(m, tracked[m.id].path, tracked[m.id].length)] else rest
  }

  lemma MovePlanStep(members: seq<Download>, i: nat, moved: seq<int>, tracked: Tracked)
    requires i < |members|
    ensures var m, so := members[i], MovePlan(members[..i], moved, tracked);
            MovePlan(members[..i + 1], moved, tracked) ==
              if m.id in moved && m.id in tracked && tracked[m.id].File?
              then so + [Mover(m, tracked[m.id].path, tracked[m.id].length)] else so
  {
    assert members[..i + 1][..i] == members[..i];
  }

  function RowsOf(plan: seq<Mover>): seq<int> {
    if plan == [] then [] else RowsOf(plan[..|plan| - 1]) + [plan[|plan| - 1].row.id]
  }

  /** Restricting the transitioned ids to one more member. */
  lemma {:induction false} PlanSplits(members: seq<Download>, moved: seq<int>, rows: Table, tracked: Tracked)
    requires DistinctIds(members)
    requires forall m <- members :: m.id in tracked && tracked[m.id].File?
    requires forall m <- members :: m.id in moved <==> m.id in rows && rows[m.id].status == Downloading
    ensures RowsOf(MovePlan(members, moved, tracked)) == Changed(rows, Ids(members), Move)
  {
    if members != [] {
      var init, m := members[..|members| - 1], members[|members| - 1];
      assert members == init + [m] && m in members;
      PlanSplits(init, moved, rows, tracked);
      LastPlanned(init, m, moved, tracked);
      LastChanged(rows, Ids(init), m.id);
      assert m.id !in Ids(init);
    }
  }

  lemma LastChanged(rows: Table, ids: seq<int>, id: int)
    requires id !in ids
    ensures Changed(rows, ids + [id], Move)
         == Changed(rows, ids, Move) + if id in rows && rows[id].status == Downloading then [id] else []
  {
    assert (ids + [id])[..|ids|] == ids;
  }

  lemma LastPlanned(init: seq<Download>, m: Download, moved: seq<int>, tracked: Tracked)
    requires m.id in tracked && tracked[m.id].File?
    ensures RowsOf(MovePlan(init + [m], moved, tracked))
         == RowsOf(MovePlan(init, moved, tracked)) + if m.id in moved then [m.id] else []
    ensures Ids(init + [m]) == Ids(init) + [m.id]
  {
    var plan, mover := MovePlan(init, moved, tracked), Mover(m, tracked[m.id].path, tracked[m.id].length);
    assert (init + [m])[..|init|] == init && (plan + [mover])[..|plan|] == plan;
  }

  /** The rows flipped to moving are, in order, exactly those of the plan, when every member is tracked as a file. */
  lemma PlanExact(g: Group, rows: Table, tracked: Tracked)
    requires DistinctIds(g.members)
    requires forall m <- g.members :: m.id in tracked && tracked[m.id].File?
    ensures var moved := Changed(rows, Ids(g.members), Move);
            RowsOf(MovePlan(g.members, moved, tracked)) == moved
  {
    forall m | m in g.members ensures m.id in Ids(g.members) {
      var i :| 0 <= i < |g.members| && g.members[i] == m;
      assert Ids(g.members)[i] == m.id;
    }
    PlanSplits(g.members, Changed(rows, Ids(g.members), Move), rows, tracked);
  }

  lemma {:induction false} PlanOnDisk(members: seq<Download>, moved: seq<int>, tracked: Tracked)
    requires forall m <- members :: MemberComplete(m, tracked)
    ensures forall p <- MovePlan(members, moved, tracked) :: p.row in members && p.row.id in moved && MemberComplete(p.row, tracked)
              && tracked[p.row.id].File? && p.path == tracked[p.row.id].path && p.length == tracked[p.row.id].length
  {
    if members != [] {
      var init, m := members[..|members| - 1], members[|members| - 1];
      assert m in members && forall x <- init :: x in members;
      PlanOnDisk(init, moved, tracked);
    }
  }

  /**
    * Flips the downloading members to moving, plans the move of those flipped, and untracks them. Only a commit that
    * takes effect without saying so leaves rows flipped and no move submitted.
    */
  method CompleteGroup(db: Database, g: Group, tracked: Tracked, faults: set<nat>)
    returns (submitted: bool, plan: seq<Mover>, left: Tracked, ghost took: bool)
    modifies db
    ensures db.rows == if took then Guarded(old(db.rows), Ids(g.members), Move) else old(db.rows)
    ensures var moved := Changed(old(db.rows), Ids(g.members), Move);
      if submitted then took && moved != [] && plan == MovePlan(g.members, moved, tracked) && left == tracked - Elems(moved)
      else plan == [] && left == tracked && (took && moved != [] ==> |g.members| in faults)
    ensures faults == {} ==> submitted == (Changed(old(db.rows), Ids(g.members), Move) != [])
  {
    submitted, plan, left := false, [], tracked;
    var moved: seq<int>, ok: bool;
    moved, ok, took := db.TxGuardedStatus(Ids(g.members), Move, faults);
    if !ok || |moved| == 0 {
      return;
    }
    plan := PlanMoves(g.members, moved, tracked);
    left := Untracked(tracked, moved);
    submitted := true;
  }

  method PlanMoves(members: seq<Download>, moved: seq<int>, tracked: Tracked) returns (plan: seq<Mover>)
    ensures plan == MovePlan(members, moved, tracked)
  {
    plan := [];
    for i := 0 to |members|
      invariant plan == MovePlan(members[..i], moved, tracked)
    {
      var m := members[i];
      MovePlanStep(members, i, moved, tracked);
      if m.id in moved && m.id in tracked && tracked[m.id].File? {
        plan := plan + [Mover(m, tracked[m.id].path, tracked[m.id].length)];
      }
    }
    assert members[..|members|] == members;
  }

  method Untracked(tracked: Tracked, moved: seq<int>) returns (left: Tracked)
    ensures left == tracked - Elems(moved)
  {
    left := tracked;
    for i := 0 to |moved|
      invariant left == tracked - Elems(moved[..i])
    {
      assert moved[..i + 1] == moved[..i] + [moved[i]];
      left := left - {moved[i]};
    }
    assert moved[..|moved|] == moved;
  }

  // ---- From the check to the flip ----

  /** The request makes a per-file row outside the group want the torrent that did not want it before. */
  ghost predicate Intrudes(a: Act, rows: Table, g: Group)
    requires g.members != []
  {
    exists id :: Outsider(Do(a, rows), g, id) && !Outsider(rows, g, id)
  }

  /** Only queueing a row, anew or again, and starting one past the queue can. */
  lemma IntrudersQueueOrStart(a: Act, rows: Table, g: Group)
    requires g.members != [] && Intrudes(a, rows, g)
    ensures a.Enqueue? || a.Requeue? || a.StartNow?
  {
    var id :| Outsider(Do(a, rows), g, id) && !Outsider(rows, g, id);
  }

  /** What the check found still holds when the rows are flipped, unless a request in between intruded. */
  lemma {:induction false} EligibleUnlessIntruded(rows: Table, acts: seq<Act>, g: Group, tracked: Tracked)
    requires g.members != [] && Eligible(rows, g, tracked)
    ensures Eligible(AfterActs(rows, acts), g, tracked)
            || exists i :: 0 <= i < |acts| && Intrudes(acts[i], AfterActs(rows, acts[..i]), g)
  {
    if acts != [] {
      var n := |acts| - 1;
      EligibleUnlessIntruded(rows, acts[..n], g, tracked);
      if !Eligible(AfterActs(rows, acts[..n]), g, tracked) {
        var i :| 0 <= i < n && Intrudes(acts[..n][i], AfterActs(rows, acts[..n][..i]), g);
        assert acts[..n][i] == acts[i] && acts[..n][..i] == acts[..i];
      }
    }
  }

  /**
    * No premature completion: a move is submitted only if, when checked, every member had all its bytes and no
    * other per-file row wanted the torrent. Other requests may come before the batch; unless one of them made such
    * a row want the torrent, that still held when the rows were flipped.
    */
  method CheckGroupCompletion(db: Database, g: Group, tracked: Tracked, fault: bool, faults: set<nat>)
    returns (submitted: bool, plan: seq<Mover>, left: Tracked, ghost acts: seq<Act>, ghost took: bool)
    requires g.members != []
    modifies db
    ensures var seen := AfterActs(old(db.rows), acts);
      && AllEnabled(old(db.rows), acts)
      && db.rows == (if took then Guarded(seen, Ids(g.members), Move) else seen)
      && if submitted then
           var moved := Changed(seen, Ids(g.members), Move);
           && Eligible(old(db.rows), g, tracked)
           && (Eligible(seen, g, tracked)
               || exists i :: 0 <= i < |acts| && Intrudes(acts[i], AfterActs(old(db.rows), acts[..i]), g))
           && took && plan == MovePlan(g.members, moved, tracked) && left == tracked - Elems(moved)
         else plan == [] && left == tracked
    ensures submitted ==>
      && (forall m <- g.members :: m.id in tracked && tracked[m.id].length > 0 && tracked[m.id].completed >= tracked[m.id].length)
      && forall id | id in old(db.rows) && Named(old(db.rows)[id], g) ::
           exists m <- g.members :: m.id == old(db.rows)[id].id
  {
    submitted, plan, left, took := false, [], tracked, false;
    var eligible := GroupCompletionEligible(db, g, tracked, fault);
    acts := OtherRequests(db);
    if eligible {
      EligibleMeans(old(db.rows), g, tracked);
      EligibleUnlessIntruded(old(db.rows), acts, g, tracked);
      submitted, plan, left, took := CompleteGroup(db, g, tracked, faults);
    }
  }

  /** Any other requests, in any order. */
  method OtherRequests(db: Database) returns (ghost acts: seq<Act>)
    modifies db
    ensures AllEnabled(old(db.rows), acts) && db.rows == AfterActs(old(db.rows), acts)
  {
    acts := [];
    var more: bool := *;
    var rounds: nat := *;
    while more && rounds > 0
      invariant AllEnabled(old(db.rows), acts) && db.rows == AfterActs(old(db.rows), acts)
    {
      var a: Act := *;
      ghost var before := acts;
      if !a.Enqueue? || (a.row.id !in db.rows && a.row.status == Queued) {
        acts := acts + [a];
        assert acts[..|acts| - 1] == before;
        assert forall i | 0 <= i < |acts| :: acts[..i] == if i < |before| then before[..i] else before;
        db.rows := Do(a, db.rows);
      }
      rounds := rounds - 1;
      more := *;
    }
  }
}
