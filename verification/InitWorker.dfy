/** The worker's critical sections on its maps, each proved to be the step the protocol has for it. */
module InitWorker {
  import opened Options
  import opened Sorting
  import opened InitProtocol

  /** Some download of the map has this torrent. */
  ghost predicate HasTorrent(m: map<int, string>, hash: string) {
    hash != "" && exists id :: id in m && m[id] == hash
  }

  /** The torrent was tracked by a download no longer listed, and no listed row shares it. */
  ghost predicate Unwanted(tracked: map<int, string>, listed: map<int, string>, hash: string) {
    HasTorrent(tracked - listed.Keys, hash) && hash !in listed.Values
  }

  lemma UnwantedIs(tracked: map<int, string>, listed: map<int, string>, h: string)
    ensures Unwanted(tracked, listed, h) <==>
      && h != "" && (exists id :: id in tracked && id !in listed && tracked[id] == h)
      && h !in listed.Values
  {
    var gone := tracked - listed.Keys;
    if Unwanted(tracked, listed, h) {
      var id :| id in gone && gone[id] == h;
      assert id in tracked && id !in listed && tracked[id] == h;
    }
    if id :| id in tracked && id !in listed && tracked[id] == h {
      assert id in gone && gone[id] == h;
    }
  }

  /** Another download of the torrent is tracked or being initialised. */
  ghost predicate Sibling(tracked: map<int, string>, pendingHash: map<int, string>, id: int, hash: string) {
    exists other :: other != id && ((other in tracked && tracked[other] == hash)
                                    || (other in pendingHash && pendingHash[other] == hash))
  }

  lemma SiblingIs(tracked: map<int, string>, pendingHash: map<int, string>, id: int, hash: string)
    ensures HasTorrent(tracked - {id}, hash) || HasTorrent(pendingHash - {id}, hash)
            <==> hash != "" && Sibling(tracked, pendingHash, id, hash)
  {
    var t, p := tracked - {id}, pendingHash - {id};
    if HasTorrent(t, hash) {
      var other :| other in t && t[other] == hash;
      assert other != id && other in tracked;
    }
    if HasTorrent(p, hash) {
      var other :| other in p && p[other] == hash;
      assert other != id && other in pendingHash;
    }
    if Sibling(tracked, pendingHash, id, hash) {
      var other :| other != id && ((other in tracked && tracked[other] == hash)
                                   || (other in pendingHash && pendingHash[other] == hash));
      assert (other in t && t[other] == hash) || (other in p && p[other] == hash);
    }
  }

  class Worker {
    /** The torrent of each tracked download; "" stands for the zero hash. */
    var tracked: map<int, string>
    /** The downloads being initialised; their torrents are kept beside. */
    var pending: set<int>
    var pendingHash: map<int, string>
    /** Tombstones of rows deleted under an init. */
    var removed: set<int>

    constructor ()
      ensures Valid() && View() == START.memory
    {
      tracked, pending, pendingHash, removed := map[], {}, map[], {};
    }

    /** The two maps of pending inits are kept in step. */
    ghost predicate Valid()
      reads this
    {
      pendingHash.Keys == pending
    }

    ghost function View(): Memory
      reads this
    {
      Memory(tracked, pendingHash, removed)
    }

    method SetPending(id: int, hash: string)
      requires Valid()
      modifies `pending, `pendingHash
      ensures Valid() && pendingHash == old(pendingHash)[id := hash]
    {
      pending := pending + {id};
      pendingHash := pendingHash[id := hash];
    }

    method ClearPending(id: int)
      requires Valid()
      modifies `pending, `pendingHash
      ensures Valid() && pendingHash == old(pendingHash) - {id}
    {
      pending := pending - {id};
      pendingHash := pendingHash - {id};
    }

    method StartInit(id: int, hash: string)
      requires Valid()
      modifies this
      ensures Valid() && View() == WithStarted(old(View()), id, hash)
      ensures tracked == old(tracked) && pendingHash == old(pendingHash)[id := hash] && removed == old(removed)
    {
      SetPending(id, hash);
    }

    /** Tracks a resolved download, unless it was cancelled or deleted meanwhile. */
    method PromoteOrAbort(id: int, hash: string) returns (ok: bool)
      requires Valid()
      modifies this
      ensures Valid() && ok == MayPromote(old(View()), id) && View() == WithPromoted(old(View()), id, hash)
      ensures ok == (id in old(pending) && id !in old(removed))
      ensures tracked == (if ok then old(tracked)[id := hash] else old(tracked)) && pending == old(pending) && removed == old(removed)
    {
      var stillPending := id in pending;
      var tombstoned := id in removed;
      if !stillPending || tombstoned {
        return false;
      }
      tracked := tracked[id := hash];
      return true;
    }

    /** The deferred end of every init. */
    method ExitInit(id: int)
      requires Valid()
      modifies this
      ensures Valid() && View() == WithExited(old(View()), id)
      ensures tracked == old(tracked) && pending == old(pending) - {id} && removed == old(removed) - {id}
    {
      ClearPending(id);
      removed := removed - {id};
    }

    /** What reconciling a whole-torrent row decides; `dead` tells that a tracked torrent is no longer there. */
    method Reconcile(id: int, hash: string, dead: bool) returns (w: Work)
      requires Valid()
      ensures w == Decided(View(), id, Row(hash, true), dead)
      ensures id !in tracked && id in pending ==> w == NoWork
      ensures id !in tracked && id !in pending ==> w == WillStart(id, hash)
      ensures id in tracked ==> w == if dead then WillPrune(id, hash, id !in pending) else NoWork
    {
      var isTracked := id in tracked;
      var isPending := id in pending;
      var start := !isPending;
      if isTracked {
        return if dead then WillPrune(id, hash, start) else NoWork;
      }
      return if start then WillStart(id, hash) else NoWork;
    }

    /** What reconciling a group of one single-file row decides: a dead torrent empties the group's state. */
    method ReconcileGroup(id: int, hash: string, dead: bool) returns (w: Work)
      requires Valid()
      ensures w == Decided(View(), id, Row(hash, false), dead)
      ensures id !in tracked && id in pending ==> w == NoWork
      ensures id !in tracked && id !in pending ==> w == WillStart(id, hash)
      ensures id in tracked ==> w == if dead then WillPrune(id, hash, true) else NoWork
    {
      var hasTracked := id in tracked;
      var anyPending := id in pending;
      if hasTracked && dead {
        return WillPrune(id, hash, true);
      }
      if hasTracked || anyPending {
        return NoWork;
      }
      return WillStart(id, hash);
    }

    /** Drops what is kept of a preempted row. */
    method PreemptTeardown(id: int)
      requires Valid()
      modifies this
      ensures Valid() && View() == old(View()).(tracked := old(tracked) - {id}, pending := old(pendingHash) - {id})
    {
      if id in tracked {
        tracked := tracked - {id};
      }
      if id in pending {
        ClearPending(id);
      }
      assert tracked == old(tracked) - {id} && pendingHash == old(pendingHash) - {id};
    }

    method HashTracked(hash: string) returns (r: bool)
      ensures r == HasTorrent(tracked, hash)
    {
      if hash == "" {
        return false;
      }
      var ids := tracked.Keys;
      while ids != {}
        invariant ids <= tracked.Keys && forall id | id in tracked && id !in ids :: tracked[id] != hash
      {
        var id := PickAny(ids);
        if tracked[id] == hash {
          return true;
        }
        ids := ids - {id};
      }
      return false;
    }

    method PendingSibling(hash: string, exclude: int) returns (r: bool)
      ensures r == HasTorrent(pendingHash - {exclude}, hash)
    {
      if hash == "" {
        return false;
      }
      var ids := pendingHash.Keys;
      while ids != {}
        invariant ids <= pendingHash.Keys
        invariant forall id | id in pendingHash && id !in ids :: id == exclude || pendingHash[id] != hash
      {
        var id := PickAny(ids);
        if id != exclude && pendingHash[id] == hash {
          assert id in pendingHash - {exclude} && (pendingHash - {exclude})[id] == hash;
          return true;
        }
        ids := ids - {id};
      }
      return false;
    }

    /**
      * Tears down a deleted download. The torrent is that of its tracked entry or else the row's, and is kept
      * exactly when another download of it is tracked or being initialised.
      */
    method RemoveState(id: int, rowHash: Option<string>) returns (hash: Option<string>, siblingKeepsTorrent: bool)
      requires Valid()
      modifies this
      ensures Valid() && View() == WithRemoved(old(View()), id)
      ensures tracked == old(tracked) - {id} && pending == old(pending) - {id} && removed == old(removed) + {id}
      ensures hash == if id in old(tracked) && old(tracked)[id] != "" then Some(old(tracked)[id]) else rowHash
      ensures siblingKeepsTorrent == (hash.Some? &&
                (HasTorrent(old(tracked) - {id}, hash.value) || HasTorrent(old(pendingHash) - {id}, hash.value)))
      ensures siblingKeepsTorrent <==>
                hash.Some? && hash.value != "" && Sibling(old(tracked), old(pendingHash), id, hash.value)
    {
      hash := rowHash;
      removed := removed + {id};
      if id in pending {
        ClearPending(id);
      }
      if id in tracked {
        if tracked[id] != "" {
          hash := Some(tracked[id]);
        }
        tracked := tracked - {id};
      }
      siblingKeepsTorrent := false;
      if hash.Some? {
        SiblingIs(old(tracked), old(pendingHash), id, hash.value);
      }
      assert pendingHash == old(pendingHash) - {id} && tracked == old(tracked) - {id};
      assert pendingHash - {id} == pendingHash;
      if hash.Some? {
        var t := HashTracked(hash.value);
        var p := PendingSibling(hash.value, id);
        siblingKeepsTorrent := t || p;
      }
    }

    /** The untrack pass: everything not listed goes; a torrent is to be dropped exactly when it becomes unwanted. */
    method UntrackPass(listed: map<int, string>) returns (toDrop: seq<string>)
      requires Valid()
      modifies this
      ensures Valid() && View() == WithOnly(old(View()), listed.Keys)
      ensures forall h :: h in toDrop <==> Unwanted(old(tracked), listed, h)
      ensures forall h :: h in toDrop <==>
        && h != "" && (exists id :: id in old(tracked) && id !in listed && old(tracked)[id] == h)
        && h !in listed.Values
      ensures (forall id :: id in tracked <==> id in old(tracked) && id in listed)
      ensures (forall id :: id in pending <==> id in old(pending) && id in listed)
    {
      toDrop := Untrack(listed);
      CancelPending(listed.Keys);
      forall h ensures Unwanted(old(tracked), listed, h) <==>
        && h != "" && (exists id :: id in old(tracked) && id !in listed && old(tracked)[id] == h)
        && h !in listed.Values
      {
        UnwantedIs(old(tracked), listed, h);
      }
    }

    method Untrack(listed: map<int, string>) returns (toDrop: seq<string>)
      modifies `tracked
      ensures tracked == old(tracked) - (old(tracked).Keys - listed.Keys)
      ensures forall h :: h in toDrop <==> Unwanted(old(tracked), listed, h)
    {
      toDrop := [];
      var ids := tracked.Keys;
      ghost var gone: set<int> := {};
      while ids != {}
        invariant ids <= old(tracked).Keys && gone == old(tracked).Keys - ids - listed.Keys
        invariant tracked == old(tracked) - gone
        invariant forall h <- toDrop :: Unwanted(old(tracked), listed, h)
        invariant forall id <- gone :: old(tracked)[id] != "" && old(tracked)[id] !in listed.Values ==> old(tracked)[id] in toDrop
      {
        var id := PickAny(ids);
        var hash := tracked[id];
        if id !in listed {
          tracked := tracked - {id};
          gone := gone + {id};
          if hash != "" && hash !in listed.Values {
            assert id in old(tracked) - listed.Keys && (old(tracked) - listed.Keys)[id] == hash;
            toDrop := toDrop + [hash];
          }
        }
        ids := ids - {id};
      }
    }

    method CancelPending(wanted: set<int>)
      requires Valid()
      modifies `pending, `pendingHash
      ensures Valid() && pendingHash == old(pendingHash) - (old(pending) - wanted)
    {
      var ids := pending;
      while ids != {}
        invariant ids <= old(pending) && Valid()
        invariant pendingHash == old(pendingHash) - (old(pending) - ids - wanted)
      {
        var id := PickAny(ids);
        if id !in wanted {
          ClearPending(id);
        }
        ids := ids - {id};
      }
    }
  }
}
