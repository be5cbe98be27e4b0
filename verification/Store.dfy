/** The `downloads` table and its status-guarded batch updates. */
module Store {
  import opened Options
  import opened Sorting
  import opened Ranking

  type Table = map<int, Download>

  ghost predicate WellKeyed(rows: Table) {
    forall id | id in rows :: rows[id].id == id
  }

  /** The batch updates, each with the instant it stamps on the rows it puts back in the queue. */
  datatype Change = Promote | Preempt(at: int) | Demote(at: int) | Move | Complete {
    /** Only rows in this status are changed. */
    function From(): Status {
      match this
      case Promote => Queued
      case Preempt(_) => Downloading
      case Demote(_) => Downloading
      case Move => Downloading
      case Complete => Moving
    }

    function On(r: Download): (s: Download)
      ensures s.id == r.id && s.status != From()
    {
      match this
      case Promote => r.(status := Downloading)
      case Preempt(at) => r.(status := Queued, queuedSince := Some(at))
      case Demote(at) => r.(status := Queued, queuedSince := Some(at), stalls := r.stalls + 1)
      case Move => r.(status := Moving)
      case Complete => r.(status := Completed)
    }
  }

  /** Rows of `ids` in the guarded status change; every other row stays as it is. */
  function Guarded(rows: Table, ids: seq<int>, c: Change): (after: Table)
    ensures after.Keys == rows.Keys
  {
    map id | id in rows :: if id in ids && rows[id].status == c.From() then c.On(rows[id]) else rows[id]
  }

  /** The ids whose row the batch changes, in batch order and without repetition. */
  function Changed(rows: Table, ids: seq<int>, c: Change): (r: seq<int>)
    ensures forall id :: id in r <==> id in ids && id in rows && rows[id].status == c.From()
    ensures NoDup(r)
  {
    if ids == [] then []
    else
      var init, last := ids[..|ids| - 1], ids[|ids| - 1];
      assert ids == init + [last];
      var r := Changed(rows, init, c);
      if last in rows && rows[last].status == c.From() && last !in init then r + [last] else r
  }

  lemma GuardedStep(rows: Table, ids: seq<int>, id: int, c: Change)
    ensures var g := Guarded(rows, ids, c);
            Guarded(rows, ids + [id], c) == if id in g && g[id].status == c.From() then g[id := c.On(g[id])] else g
  {
    assert forall x :: x in ids + [id] <==> x in ids || x == id;
  }

  lemma ChangedStep(rows: Table, ids: seq<int>, id: int, c: Change)
    ensures var g := Guarded(rows, ids, c);
            Changed(rows, ids + [id], c)
            == if id in g && g[id].status == c.From() then Changed(rows, ids, c) + [id] else Changed(rows, ids, c)
  {
    assert (ids + [id])[..|ids|] == ids;
  }

  /** What each batch does to a row it names, by the status the row is in. */
  lemma EachChange(rows: Table, ids: seq<int>, at: int, id: int)
    requires id in ids && id in rows
    ensures Guarded(rows, ids, Promote)[id] == if rows[id].status == Queued then rows[id].(status := Downloading) else rows[id]
    ensures Guarded(rows, ids, Preempt(at))[id]
         == if rows[id].status == Downloading then rows[id].(status := Queued, queuedSince := Some(at)) else rows[id]
    ensures Guarded(rows, ids, Demote(at))[id]
         == if rows[id].status == Downloading
            then rows[id].(status := Queued, queuedSince := Some(at), stalls := rows[id].stalls + 1) else rows[id]
    ensures Guarded(rows, ids, Move)[id] == if rows[id].status == Downloading then rows[id].(status := Moving) else rows[id]
    ensures Guarded(rows, ids, Complete)[id] == if rows[id].status == Moving then rows[id].(status := Completed) else rows[id]
  {
  }

  lemma {:induction false} NothingToChange(rows: Table, ids: seq<int>, c: Change)
    requires forall id | id in ids && id in rows :: rows[id].status != c.From()
    ensures Changed(rows, ids, c) == []
  {
    if ids != [] {
      NothingToChange(rows, ids[..|ids| - 1], c);
    }
  }

  /** The rows that differ afterwards are exactly those reported, and the same batch again changes nothing. */
  lemma GuardedExact(rows: Table, ids: seq<int>, c: Change)
    ensures var after := Guarded(rows, ids, c);
      && (forall id | id in rows :: id in Changed(rows, ids, c) <==> after[id] != rows[id])
      && (forall id | id in Changed(rows, ids, c) :: after[id] == c.On(rows[id]))
      && Guarded(after, ids, c) == after && Changed(after, ids, c) == []
  {
    var after := Guarded(rows, ids, c);
    assert forall id | id in ids && id in after :: after[id].status != c.From();
    NothingToChange(after, ids, c);
  }

  class Database {
    var rows: Table

    /**
      * One transaction over the batch: either every matching row changes, or none does. `faults` says at which
      * statement, if any, the database fails; a commit may take effect and still report a failure.
      */
    method TxGuardedStatus(ids: seq<int>, c: Change, faults: set<nat>)
      returns (changed: seq<int>, ok: bool, ghost took: bool)
      modifies this
      ensures rows == if took then Guarded(old(rows), ids, c) else old(rows)
      ensures changed == if ok then Changed(old(rows), ids, c) else []
      ensures ok ==> took
      ensures took && !ok ==> ids != [] && |ids| in faults
      ensures faults == {} ==> ok
    {
      changed, ok, took := [], true, true;
      if ids == [] {
        return;
      }
      var staged := rows;
      for k := 0 to |ids|
        invariant staged == Guarded(rows, ids[..k], c)
        invariant changed == Changed(rows, ids[..k], c)
        invariant rows == old(rows)
      {
        if k in faults {
          return [], false, false;
        }
        var id := ids[k];
        assert ids[..k + 1] == ids[..k] + [id];
        GuardedStep(rows, ids[..k], id, c);
        ChangedStep(rows, ids[..k], id, c);
        if id in staged && staged[id].status == c.From() {
          staged := staged[id := c.On(staged[id])];
          changed := changed + [id];
        }
      }
      assert ids[..|ids|] == ids;
      var late: bool := *;
      if |ids| !in faults || late {
        rows := staged;
      } else {
        took := false;
      }
      if |ids| in faults {
        changed, ok := [], false;
      }
    }
  }
}
