/** Switching a stalled download between its known sources. */
module Rotation {
  import opened Options
  import opened Sorting
  import opened SourceTable

  // ---- One rotation ----

  /** The download being rotated, with its original torrent. */
  datatype Rotating = Rotating(id: int, original: Offer)

  /**
    * Which statements fail. `has` is the query whether there are sources, `list` the one that lists them;
    * `unread` and `unmarked` are the sources whose tries could not be read, or whose row not be updated, as they were
    * parked. The failing one of the three statements that activate is counted from 1; a fourth failure is that of
    * the third when it takes effect all the same.
    */
  datatype Faults = Faults(get: bool, has: bool, register: bool, list: bool, unread: set<int>, unmarked: set<int>,
                           pick: bool, pickAgain: bool, activate: nat) {
    /** The source stays as it is if it is to be parked. */
    predicate Keeps(id: int) {
      list || id in unmarked
    }
  }

  function Register(rows: seq<Source>, dl: Rotating, f: Faults): seq<Source> {
    if (HasSources(rows, dl.id) && !f.has) || f.register then rows else Ensured(rows, dl.id, dl.original, Active)
  }

  function ParkRow(r: Source, d: int, now: int, f: Faults): Source {
    if r.download == d && r.status.Active? && !f.Keeps(r.id) then MarkRow(r, now, r.id !in f.unread) else r
  }

  function Park(rows: seq<Source>, d: int, now: int, f: Faults): (r: seq<Source>)
    ensures |r| == |rows| && forall i | 0 <= i < |rows| :: r[i] == ParkRow(rows[i], d, now, f)
  {
    seq(|rows|, i requires 0 <= i < |rows| => ParkRow(rows[i], d, now, f))
  }

  function Pick(rows: seq<Source>, d: int, now: int, fault: bool): Option<Source> {
    if fault then None else PickNext(rows, d, now)
  }

  function Discovered(rows: seq<Source>, d: int, found: seq<Offer>): seq<Source> {
    if found == [] then rows
    else Ensured(Discovered(rows, d, found[..|found| - 1]), d, found[|found| - 1], Candidate)
  }

  function Activate(rows: seq<Source>, d: int, id: int, fault: nat): seq<Source> {
    if fault == 1 then rows
    else if fault == 2 then Deactivated(rows, d)
    else Activated(Deactivated(rows, d), id)
  }

  /** The table when the choice is made, and the source chosen. `found` is what a new search would bring. */
  function Chosen(rows: seq<Source>, dl: Rotating, found: seq<Offer>, now: int, f: Faults): (seq<Source>, Option<Source>) {
    var parked := Park(Register(rows, dl, f), dl.id, now, f);
    var known := Pick(parked, dl.id, now, f.pick);
    var r := if known.Some? then parked else Discovered(parked, dl.id, found);
    (r, if known.Some? then known else Pick(r, dl.id, now, f.pickAgain))
  }

  /** The table after an attempt to rotate, and the source switched to, if any. */
  function Rotated(rows: seq<Source>, dl: Rotating, found: seq<Offer>, now: int, f: Faults): (seq<Source>, Option<Source>) {
    if f.get then (rows, None)
    else
      var (r, next) := Chosen(rows, dl, found, now, f);
      if next.None? then (r, None)
      else (Activate(r, dl.id, next.value.id, f.activate), if 1 <= f.activate <= 4 then None else next)
  }

  /** The rows of the download parked so far. */
  function ParkedSome(rows: seq<Source>, d: int, now: int, f: Faults, done: set<int>): (r: seq<Source>)
    ensures |r| == |rows|
    ensures forall i | 0 <= i < |rows| :: r[i] == if rows[i].id in done then ParkRow(rows[i], d, now, f) else rows[i]
  {
    seq(|rows|, i requires 0 <= i < |rows| => if rows[i].id in done then ParkRow(rows[i], d, now, f) else rows[i])
  }

  lemma ParkStep(rows: seq<Source>, d: int, now: int, f: Faults, done: set<int>, s: Source)
    requires Keyed(rows) && s in rows && s.download == d && s.id !in done && !f.list
    ensures ParkedSome(rows, d, now, f, done + {s.id})
         == if s.status.Active? && s.id !in f.unmarked
            then Marked(ParkedSome(rows, d, now, f, done), s.id, now, s.id !in f.unread) else ParkedSome(rows, d, now, f, done)
  {
    var k :| 0 <= k < |rows| && rows[k] == s;
    forall i | 0 <= i < |rows| && rows[i].id == s.id ensures i == k {
    }
  }

  predicate ListedBefore(a: Source, b: Source) {
    if a.status.Active? != b.status.Active? then a.status.Active?
    else if a.offer.seeders != b.offer.seeders then a.offer.seeders > b.offer.seeders
    else a.id < b.id
  }

  class SourceStore {
    var rows: seq<Source>
    /** The torrent each rotated download is to use. */
    var activeMagnet: map<int, string>

    method EnsureSource(d: int, offer: Offer, status: SourceStatus)
      modifies `rows
      ensures rows == Ensured(old(rows), d, offer, status)
    {
      rows := Ensured(rows, d, offer, status);
    }

    /** A failed read of the tries leaves them at zero for the comparison, not for the update. */
    method MarkSourceTried(id: int, now: int, read: bool, written: bool)
      modifies `rows
      ensures rows == if written then Marked(old(rows), id, now, read) else old(rows)
      ensures |rows| == |old(rows)|
      ensures forall i | 0 <= i < |rows| :: var r := old(rows)[i];
        rows[i] == if r.id == id && written
                   then r.(tries := r.tries + 1, lastTried := Some(now), status := if read && r.tries >= 2 then Failed else Cooldown)
                   else r
    {
      if written {
        rows := Marked(rows, id, now, read);
      }
    }

    method ListSources(d: int) returns (r: seq<Source>)
      requires Keyed(rows)
      ensures NoDup(r) && forall x :: x in r <==> x in rows && x.download == d
    {
      r := StableSort(RowsOf(rows, d), ListedBefore);
      RowsOfNoDup(rows, d);
      SortNoDup(RowsOf(rows, d), r);
      assert forall x :: x in r <==> x in multiset(r);
      assert forall x :: x in RowsOf(rows, d) <==> x in multiset(RowsOf(rows, d));
    }

    /** Registers the original source on the first rotation, then marks the active one tried. */
    method ParkCurrentSource(dl: Rotating, now: int, f: Faults)
      requires Keyed(rows)
      modifies `rows
      ensures rows == Park(Register(old(rows), dl, f), dl.id, now, f)
    {
      var has := HasSources(rows, dl.id) && !f.has;
      if !has && !f.register {
        EnsuredKeyed(rows, dl.id, dl.original, Active);
        EnsureSource(dl.id, dl.original, Active);
      }
      MarkActiveSources(dl.id, now, f);
    }

    method MarkActiveSources(d: int, now: int, f: Faults)
      requires Keyed(rows)
      modifies `rows
      ensures rows == Park(old(rows), d, now, f)
    {
      ghost var before := rows;
      if f.list {
        assert rows == Park(before, d, now, f);
        return;
      }
      var sources := ListSources(d);
      ghost var done: set<int> := {};
      assert rows == ParkedSome(before, d, now, f, done);
      for k := 0 to |sources|
        invariant done == set s | s in sources[..k] :: s.id
        invariant rows == ParkedSome(before, d, now, f, done)
      {
        var s := sources[k];
        assert s in sources && sources[..k + 1] == sources[..k] + [s];
        ParkStep(before, d, now, f, done, s);
        if s.status.Active? {
          MarkSourceTried(s.id, now, s.id !in f.unread, s.id !in f.unmarked);
        }
        done := done + {s.id};
      }
      assert rows == Park(before, d, now, f);
    }

    /** Scans the eligible sources, most preferred first, for one that is not cooling down. */
    method NextSource(d: int, now: int, fault: bool) returns (next: Option<Source>)
      ensures next == Pick(rows, d, now, fault)
    {
      if fault {
        return None;
      }
      var sorted := StableSort(EligibleRows(rows, d), Preferred);
      for i := 0 to |sorted|
        invariant FirstReady(sorted, now) == FirstReady(sorted[i..], now)
      {
        assert sorted[i..][0] == sorted[i] && sorted[i..][1..] == sorted[i + 1..];
        if !Cooling(sorted[i], now) {
          return Some(sorted[i]);
        }
      }
      next := None;
    }

    /** Three statements, the second and third of which run only if those before succeeded. */
    method ActivateSource(d: int, id: int, magnet: string, fault: nat) returns (ok: bool)
      modifies this
      ensures rows == Activate(old(rows), d, id, fault) && ok == !(1 <= fault <= 4)
      ensures |rows| == |old(rows)|
      ensures forall i | 0 <= i < |rows| :: var r := old(rows)[i];
        rows[i] == if fault == 1 then r
                   else if fault != 2 && r.id == id then r.(status := Active)
                   else if r.download == d && r.status == Active then r.(status := Candidate) else r
      ensures activeMagnet == if 1 <= fault <= 3 then old(activeMagnet) else old(activeMagnet)[d := magnet]
    {
      if fault == 1 {
        return false;
      }
      rows := Deactivated(rows, d);
      if fault == 2 {
        return false;
      }
      rows := Activated(rows, id);
      if fault == 3 {
        return false;
      }
      activeMagnet := activeMagnet[d := magnet];
      ok := fault != 4;
    }

    method DiscoverSources(d: int, found: seq<Offer>)
      modifies `rows
      ensures rows == Discovered(old(rows), d, found)
    {
      for k := 0 to |found|
        invariant rows == Discovered(old(rows), d, found[..k])
      {
        assert found[..k + 1][..k] == found[..k];
        EnsureSource(d, found[k], Candidate);
      }
      assert found[..|found|] == found;
    }

    /** Parks the current source and picks the best ready one, searching for more if there is none. */
    method Choose(dl: Rotating, found: seq<Offer>, now: int, f: Faults) returns (next: Option<Source>)
      requires Keyed(rows)
      modifies `rows
      ensures (rows, next) == Chosen(old(rows), dl, found, now, f)
    {
      ParkCurrentSource(dl, now, f);
      next := NextSource(dl.id, now, f.pick);
      if next.None? {
        DiscoverSources(dl.id, found);
        next := NextSource(dl.id, now, f.pickAgain);
      }
    }

    /** Switches a stalled download to another source, if it has one. */
    method TryRotate(dl: Rotating, found: seq<Offer>, now: int, f: Faults) returns (rotated: bool)
      requires Keyed(rows)
      modifies this
      ensures var (after, next) := Rotated(old(rows), dl, found, now, f);
              rows == after && rotated == next.Some?
      ensures var chosen := Chosen(old(rows), dl, found, now, f).1;
              activeMagnet == if f.get || chosen.None? || 1 <= f.activate <= 3 then old(activeMagnet)
                              else old(activeMagnet)[dl.id := chosen.value.offer.magnet]
    {
      if f.get {
        return false;
      }
      var next := Choose(dl, found, now, f);
      if next.None? {
        return false;
      }
      rotated := ActivateSource(dl.id, next.value.id, next.value.offer.magnet, f.activate);
    }
  }

  // ---- What every attempt keeps ----

  /** The same sources, whatever became of them. */
  ghost predicate SameSources(rows: seq<Source>, after: seq<Source>) {
    |after| == |rows| && forall i | 0 <= i < |rows| ::
      after[i].id == rows[i].id && after[i].download == rows[i].download && after[i].offer.infoHash == rows[i].offer.infoHash
  }

  lemma EnsuredKeyed(rows: seq<Source>, d: int, offer: Offer, status: SourceStatus)
    requires Keyed(rows)
    ensures Keyed(Ensured(rows, d, offer, status))
  {
    var after := Ensured(rows, d, offer, status);
    if !Known(rows, d, offer.infoHash) {
      forall i | 0 <= i < |rows|
        ensures after[i].id != after[|rows|].id && !(after[i].download == d && after[i].offer.infoHash == offer.infoHash)
      {
        assert rows[i] in rows;
      }
    }
  }

  lemma {:induction false} DiscoveredKeyed(rows: seq<Source>, d: int, found: seq<Offer>)
    requires Keyed(rows)
    ensures Keyed(Discovered(rows, d, found))
  {
    if found != [] {
      DiscoveredKeyed(rows, d, found[..|found| - 1]);
      EnsuredKeyed(Discovered(rows, d, found[..|found| - 1]), d, found[|found| - 1], Candidate);
    }
  }

  lemma RegisterKeyed(rows: seq<Source>, dl: Rotating, f: Faults)
    requires Keyed(rows)
    ensures Keyed(Register(rows, dl, f))
  {
    EnsuredKeyed(rows, dl.id, dl.original, Active);
  }

  lemma ChosenKeyed(rows: seq<Source>, dl: Rotating, found: seq<Offer>, now: int, f: Faults)
    requires Keyed(rows)
    ensures var (r, next) := Chosen(rows, dl, found, now, f);
            Keyed(r) && (next.Some? ==> next.value in r && Eligible(next.value, dl.id))
  {
    RegisterKeyed(rows, dl, f);
    var parked := Park(Register(rows, dl, f), dl.id, now, f);
    assert SameSources(Register(rows, dl, f), parked);
    DiscoveredKeyed(parked, dl.id, found);
    PickNextBest(parked, dl.id, now);
    PickNextBest(Discovered(parked, dl.id, found), dl.id, now);
  }

  /** Whatever fails, ids stay unique and torrents known once. */
  lemma RotatedKeyed(rows: seq<Source>, dl: Rotating, found: seq<Offer>, now: int, f: Faults)
    requires Keyed(rows)
    ensures Keyed(Rotated(rows, dl, found, now, f).0)
  {
    ChosenKeyed(rows, dl, found, now, f);
    var (r, next) := Chosen(rows, dl, found, now, f);
    if next.Some? {
      ActivateKeyed(r, dl.id, next.value.id, f.activate);
    }
  }

  lemma ActivateKeyed(rows: seq<Source>, d: int, id: int, fault: nat)
    requires Keyed(rows)
    ensures Keyed(Activate(rows, d, id, fault))
  {
    assert SameSources(rows, Activate(rows, d, id, fault));
  }
}
