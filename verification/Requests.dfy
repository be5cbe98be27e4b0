/** The requests that change the `downloads` table beside the worker. */
module Requests {
  import opened Options
  import opened Ranking
  import opened Store

  /** What other requests may do to the table while the worker is between two statements of its own. */
  datatype Act =
    | Pause(ids: set<int>)
    | Delete(id: int)
    | Enqueue(row: Download)
    | Requeue(ids: set<int>, since: int)
    | BeginMove(id: int)
    | FinishMove(id: int)
    | Fail(id: int)
    | StartNow(id: int)

  ghost predicate Enabled(a: Act, rows: Table) {
    a.Enqueue? ==> a.row.id !in rows && a.row.status == Queued
  }

  function SetStatus(rows: Table, id: int, to: Status): Table {
    map x | x in rows :: if x == id then rows[x].(status := to) else rows[x]
  }

  /** Moves of single rows write their status whatever it was. */
  function Do(a: Act, rows: Table): Table {
    match a
    case Pause(ids) =>
      map x | x in rows :: if x in ids && rows[x].status != Completed && rows[x].status != Failed
                           then rows[x].(status := Paused) else rows[x]
    case Delete(id) => map x | x in rows && x != id :: rows[x]
    case Enqueue(row) => rows[row.id := row]
    case Requeue(ids, since) =>
      map x | x in rows :: if x in ids && rows[x].status != Downloading
                           then rows[x].(status := Queued, queuedSince := Some(since)) else rows[x]
    case BeginMove(id) => SetStatus(rows, id, Moving)
    case FinishMove(id) => SetStatus(rows, id, Completed)
    case Fail(id) => SetStatus(rows, id, Failed)
    // The remote-control handler writes the status without going through the queue.
    case StartNow(id) => SetStatus(rows, id, Downloading)
  }

  /** The table after the requests, in order. */
  function AfterActs(rows: Table, acts: seq<Act>): Table {
    if acts == [] then rows else Do(acts[|acts| - 1], AfterActs(rows, acts[..|acts| - 1]))
  }

  ghost predicate AllEnabled(rows: Table, acts: seq<Act>) {
    forall i | 0 <= i < |acts| :: Enabled(acts[i], AfterActs(rows, acts[..i]))
  }
}
