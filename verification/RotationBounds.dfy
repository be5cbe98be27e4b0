/** How often downloads are switched between their sources, whichever statements fail. */
module RotationBounds {
  import opened Options
  import opened SourceTable
  import opened Rotation
  import opened RotationRules

  /** How many more times a source can become active: one past its tries has one more, and a failed one none. */
  function Room(r: Source): (n: int)
    ensures 0 <= n <= MAX_TRIES
  {
    var tries := if r.status.Failed? then 0 else if r.tries + 1 < MAX_TRIES then MAX_TRIES - r.tries else 1;
    if r.status.Active? then tries - 1 else tries
  }

  function RoomFor(r: Source, d: int): int {
    if r.download == d then Room(r) else 0
  }

  /** The activations left to a download's known sources. */
  ghost function Left(rows: seq<Source>, d: int): int {
    if rows == [] then 0 else Left(rows[..|rows| - 1], d) + RoomFor(rows[|rows| - 1], d)
  }

  ghost function SourceCount(rows: seq<Source>, d: int): nat {
    if rows == [] then 0 else SourceCount(rows[..|rows| - 1], d) + if rows[|rows| - 1].download == d then 1 else 0
  }

  ghost function ActiveCount(rows: seq<Source>, d: int): nat {
    if rows == [] then 0 else ActiveCount(rows[..|rows| - 1], d) + if ActiveAt(rows, d, |rows| - 1) then 1 else 0
  }

  /** The row is parked at its last try, or after it, without its tries being read. */
  predicate LateUnread(r: Source, d: int, f: Faults) {
    r.download == d && r.status.Active? && !f.Keeps(r.id) && r.id in f.unread && r.tries + 1 >= MAX_TRIES
  }

  ghost function UnreadCount(rows: seq<Source>, d: int, f: Faults): nat {
    if rows == [] then 0 else UnreadCount(rows[..|rows| - 1], d, f) + if LateUnread(rows[|rows| - 1], d, f) then 1 else 0
  }

  lemma {:induction false} LeftBounds(rows: seq<Source>, d: int)
    ensures 0 <= Left(rows, d) <= MAX_TRIES * SourceCount(rows, d)
  {
    if rows != [] {
      LeftBounds(rows[..|rows| - 1], d);
    }
  }

  /** Rows as many and of the same downloads, all but the k-th with as much room: the difference is the k-th's. */
  lemma {:induction false} LeftDiffers(rows: seq<Source>, after: seq<Source>, d: int, k: nat)
    requires |rows| == |after|
    requires forall i | 0 <= i < |rows| :: after[i].download == rows[i].download
    requires forall i | 0 <= i < |rows| && i != k :: RoomFor(after[i], d) == RoomFor(rows[i], d)
    ensures SourceCount(after, d) == SourceCount(rows, d)
    ensures Left(after, d) == Left(rows, d) + if k < |rows| then RoomFor(after[k], d) - RoomFor(rows[k], d) else 0
  {
    if rows != [] {
      LeftDiffers(rows[..|rows| - 1], after[..|rows| - 1], d, k);
    }
  }

  lemma {:induction false} SameActiveCount(rows: seq<Source>, after: seq<Source>, d: int)
    requires |rows| == |after| && forall i | 0 <= i < |rows| :: ActiveAt(after, d, i) == ActiveAt(rows, d, i)
    ensures ActiveCount(after, d) == ActiveCount(rows, d)
  {
    if rows != [] {
      var n := |rows| - 1;
      forall i | 0 <= i < n ensures ActiveAt(after[..n], d, i) == ActiveAt(rows[..n], d, i) {
        assert ActiveAt(after, d, i) == ActiveAt(rows, d, i);
      }
      SameActiveCount(rows[..n], after[..n], d);
    }
  }

  /** A new source has all its activations left, or all but the one in use. */
  lemma EnsuredLeft(rows: seq<Source>, d: int, offer: Offer, status: SourceStatus, e: int)
    requires !status.Failed?
    ensures var after := Ensured(rows, d, offer, status);
            var more := if e == d && |after| > |rows| then 1 else 0;
            && |after| >= |rows|
            && SourceCount(after, e) == SourceCount(rows, e) + more
            && Left(after, e) == Left(rows, e) + more * (MAX_TRIES - if status.Active? then 1 else 0)
            && (!status.Active? ==> ActiveCount(after, e) == ActiveCount(rows, e))
  {
    var after := Ensured(rows, d, offer, status);
    if Known(rows, d, offer.infoHash) {
      LeftDiffers(rows, after, e, |rows|);
      SameActiveCount(rows, after, e);
    } else {
      assert after[..|after| - 1] == rows;
    }
  }

  lemma {:induction false} DiscoveredLeft(rows: seq<Source>, d: int, found: seq<Offer>, e: int)
    ensures var after := Discovered(rows, d, found);
            && |after| >= |rows| && SourceCount(after, e) >= SourceCount(rows, e)
            && (|after| == |rows| ==> SourceCount(after, e) == SourceCount(rows, e))
            && Left(after, e) == Left(rows, e) + MAX_TRIES * (SourceCount(after, e) - SourceCount(rows, e))
            && ActiveCount(after, e) == ActiveCount(rows, e)
  {
    if found != [] {
      DiscoveredLeft(rows, d, found[..|found| - 1], e);
      EnsuredLeft(Discovered(rows, d, found[..|found| - 1]), d, found[|found| - 1], Candidate, e);
    }
  }

  lemma ParkRowRoom(r: Source, d: int, now: int, f: Faults)
    ensures Room(ParkRow(r, d, now, f)) == Room(r) + if LateUnread(r, d, f) then 1 else 0
  {
  }

  /** Parking moves a try from pending to done; only one whose tries are not read in time gains an activation. */
  lemma {:induction false} ParkLeft(rows: seq<Source>, d: int, now: int, f: Faults, e: int)
    ensures var after := Park(rows, d, now, f);
            && SourceCount(after, e) == SourceCount(rows, e)
            && Left(after, e) == Left(rows, e) + if e == d then UnreadCount(rows, d, f) else 0
  {
    if rows != [] {
      var n := |rows| - 1;
      ParkLeft(rows[..n], d, now, f, e);
      assert Park(rows, d, now, f)[..n] == Park(rows[..n], d, now, f);
      ParkRowRoom(rows[n], d, now, f);
    }
  }

  lemma {:induction false} DeactivatedLeft(rows: seq<Source>, d: int, e: int)
    ensures var after := Deactivated(rows, d);
            && SourceCount(after, e) == SourceCount(rows, e)
            && Left(after, e) == Left(rows, e) + if e == d then ActiveCount(rows, d) else 0
  {
    if rows != [] {
      var n := |rows| - 1;
      DeactivatedLeft(rows[..n], d, e);
      assert Deactivated(rows, d)[..n] == Deactivated(rows[..n], d);
    }
  }

  lemma ActivatedLeft(rows: seq<Source>, d: int, s: Source, e: int)
    requires Keyed(rows) && s in rows && Eligible(s, d)
    ensures var after := Activated(rows, s.id);
            SourceCount(after, e) == SourceCount(rows, e) && Left(after, e) == Left(rows, e) - if e == d then 1 else 0
  {
    var k :| 0 <= k < |rows| && rows[k] == s;
    assert forall i | 0 <= i < |rows| && rows[i].id == s.id :: i == k;
    LeftDiffers(rows, Activated(rows, s.id), e, k);
  }

  /** The row the second statement leaves for the third to activate. */
  lemma StillThere(rows: seq<Source>, d: int, s: Source)
    requires Keyed(rows) && s in rows && Eligible(s, d)
    ensures s in Deactivated(rows, d) && Keyed(Deactivated(rows, d))
  {
    var k :| 0 <= k < |rows| && rows[k] == s;
    assert Deactivated(rows, d)[k] == s;
    assert SameSources(rows, Deactivated(rows, d));
  }

  lemma ActivateLeft(rows: seq<Source>, d: int, s: Source, fault: nat, e: int)
    requires Keyed(rows) && s in rows && Eligible(s, d)
    ensures var after := Activate(rows, d, s.id, fault);
            var switched := if e == d && fault != 1 && fault != 2 then 1 else 0;
            var freed := if e == d && fault != 1 then ActiveCount(rows, d) else 0;
            && SourceCount(after, e) == SourceCount(rows, e)
            && Left(after, e) + switched == Left(rows, e) + freed
  {
    DeactivatedLeft(rows, d, e);
    StillThere(rows, d, s);
    ActivatedLeft(Deactivated(rows, d), d, s, e);
  }

  /** How many sources of its download an attempt leaves active as it parks them. */
  ghost function KeptCount(rows: seq<Source>, dl: Rotating, f: Faults, now: int): nat {
    if f.get then 0 else ActiveCount(Park(Register(rows, dl, f), dl.id, now, f), dl.id)
  }

  /** How many it parks at their last try, or after it, without reading the tries. */
  ghost function LateCount(rows: seq<Source>, dl: Rotating, f: Faults): nat {
    if f.get then 0 else UnreadCount(Register(rows, dl, f), dl.id, f)
  }

  lemma ChosenLeft(rows: seq<Source>, dl: Rotating, found: seq<Offer>, now: int, f: Faults, e: int)
    requires !f.get
    ensures var r := Chosen(rows, dl, found, now, f).0;
            var late := if e == dl.id then LateCount(rows, dl, f) else 0;
            && |r| >= |rows| && SourceCount(r, e) >= SourceCount(rows, e)
            && Left(r, e) <= Left(rows, e) + MAX_TRIES * (SourceCount(r, e) - SourceCount(rows, e)) + late
            && (|r| == |rows| ==> SourceCount(r, e) == SourceCount(rows, e) && Left(r, e) == Left(rows, e) + late)
            && ActiveCount(r, dl.id) == KeptCount(rows, dl, f, now)
  {
    RegisterLeft(rows, dl, f, e);
    ParkLeft(Register(rows, dl, f), dl.id, now, f, e);
    PickedLeft(Park(Register(rows, dl, f), dl.id, now, f), dl, found, now, f, e);
  }

  lemma RegisterLeft(rows: seq<Source>, dl: Rotating, f: Faults, e: int)
    ensures var after := Register(rows, dl, f);
            && |after| >= |rows| && SourceCount(after, e) >= SourceCount(rows, e)
            && (|after| == |rows| ==> SourceCount(after, e) == SourceCount(rows, e) && Left(after, e) == Left(rows, e))
            && Left(after, e) <= Left(rows, e) + MAX_TRIES * (SourceCount(after, e) - SourceCount(rows, e))
  {
    EnsuredLeft(rows, dl.id, dl.original, Active, e);
  }

  /** The search for more, if there is one. */
  lemma PickedLeft(parked: seq<Source>, dl: Rotating, found: seq<Offer>, now: int, f: Faults, e: int)
    ensures var r := if Pick(parked, dl.id, now, f.pick).Some? then parked else Discovered(parked, dl.id, found);
            && |r| >= |parked| && SourceCount(r, e) >= SourceCount(parked, e)
            && (|r| == |parked| ==> SourceCount(r, e) == SourceCount(parked, e))
            && Left(r, e) == Left(parked, e) + MAX_TRIES * (SourceCount(r, e) - SourceCount(parked, e))
            && ActiveCount(r, dl.id) == ActiveCount(parked, dl.id)
  {
    DiscoveredLeft(parked, dl.id, found, e);
    DiscoveredLeft(parked, dl.id, found, dl.id);
  }

  /**
    * Each switch of a download takes one from the activations left to its sources, and only a new source (up to
    * three), a source not parked or one parked with its last tries unread (one each) adds any. When every statement
    * succeeds and no source is new, an attempt takes exactly one if it switches, and none if not.
    */
  lemma RotatedLeft(rows: seq<Source>, dl: Rotating, found: seq<Offer>, now: int, f: Faults, e: int)
    requires Keyed(rows)
    ensures var (after, next) := Rotated(rows, dl, found, now, f);
      var switched := if e == dl.id && next.Some? then 1 else 0;
      var late, kept := if e == dl.id then LateCount(rows, dl, f) else 0, if e == dl.id then KeptCount(rows, dl, f, now) else 0;
      && |after| >= |rows| && SourceCount(after, e) >= SourceCount(rows, e)
      && Left(after, e) + switched <= Left(rows, e) + MAX_TRIES * (SourceCount(after, e) - SourceCount(rows, e)) + late + kept
      && (|after| == |rows| && kept == 0 && f.activate == 0 ==> Left(after, e) + switched == Left(rows, e) + late)
  {
    if !f.get {
      ChosenKeyed(rows, dl, found, now, f);
      ChosenLeft(rows, dl, found, now, f, e);
      var (r, next) := Chosen(rows, dl, found, now, f);
      if next.Some? {
        ActivateLeft(r, dl.id, next.value, f.activate, e);
      }
    }
  }

  // ---- Over runs ----

  datatype Attempt = Attempt(dl: Rotating, found: seq<Offer>, now: int, faults: Faults)

  function Tried(rows: seq<Source>, a: Attempt): (seq<Source>, Option<Source>) {
    Rotated(rows, a.dl, a.found, a.now, a.faults)
  }

  function After(rows: seq<Source>, run: seq<Attempt>): seq<Source> {
    if run == [] then rows else Tried(After(rows, run[..|run| - 1]), run[|run| - 1]).0
  }

  /** How often a run switches a download's source. */
  ghost function Switches(rows: seq<Source>, run: seq<Attempt>, d: int): nat {
    if run == [] then 0
    else
      var init, last := run[..|run| - 1], run[|run| - 1];
      Switches(rows, init, d) + if last.dl.id == d && Tried(After(rows, init), last).1.Some? then 1 else 0
  }

  /** How often a source of the download was not parked although it was active. */
  ghost function FailedParks(rows: seq<Source>, run: seq<Attempt>, d: int): nat {
    if run == [] then 0
    else
      var init, a := run[..|run| - 1], run[|run| - 1];
      FailedParks(rows, init, d) + if a.dl.id == d then KeptCount(After(rows, init), a.dl, a.faults, a.now) else 0
  }

  /** How often one was parked at its last try, or after it, with its tries unread. */
  ghost function LateReads(rows: seq<Source>, run: seq<Attempt>, d: int): nat {
    if run == [] then 0
    else
      var init, a := run[..|run| - 1], run[|run| - 1];
      LateReads(rows, init, d) + if a.dl.id == d then LateCount(After(rows, init), a.dl, a.faults) else 0
  }

  lemma {:induction false} RunLeft(rows: seq<Source>, run: seq<Attempt>, d: int)
    requires Keyed(rows)
    ensures var end := After(rows, run);
      && Keyed(end) && SourceCount(end, d) >= SourceCount(rows, d)
      && Left(end, d) + Switches(rows, run, d)
         <= Left(rows, d) + MAX_TRIES * (SourceCount(end, d) - SourceCount(rows, d))
            + FailedParks(rows, run, d) + LateReads(rows, run, d)
  {
    if run != [] {
      var init, a := run[..|run| - 1], run[|run| - 1];
      RunLeft(rows, init, d);
      RotatedKeyed(After(rows, init), a.dl, a.found, a.now, a.faults);
      RotatedLeft(After(rows, init), a.dl, a.found, a.now, a.faults, d);
    }
  }

  /**
    * Rotation terminates: over any run of attempts on any downloads, a download is switched at most three times
    * per source it ever knew, plus once for every source not parked or parked with its last tries unread.
    */
  lemma SwitchesBounded(rows: seq<Source>, run: seq<Attempt>, d: int)
    requires Keyed(rows)
    ensures Switches(rows, run, d)
         <= 3 * SourceCount(After(rows, run), d) + FailedParks(rows, run, d) + LateReads(rows, run, d)
  {
    RunLeft(rows, run, d);
    LeftBounds(rows, d);
    LeftBounds(After(rows, run), d);
  }

  // ---- Source by source ----

  /** How many more times the k-th source can become active; rows are only ever added at the end. */
  ghost function RoomAt(rows: seq<Source>, k: nat): int {
    if k < |rows| then Room(rows[k]) else MAX_TRIES
  }

  ghost predicate SamePlace(rows: seq<Source>, after: seq<Source>, k: nat) {
    k < |rows| ==> k < |after| && after[k].id == rows[k].id
  }

  lemma EnsuredRoom(rows: seq<Source>, d: int, offer: Offer, status: SourceStatus, k: nat)
    requires !status.Failed?
    ensures var after := Ensured(rows, d, offer, status);
      SamePlace(rows, after, k) && RoomAt(after, k) <= RoomAt(rows, k)
  {
  }

  lemma {:induction false} DiscoveredRoom(rows: seq<Source>, d: int, found: seq<Offer>, k: nat)
    ensures var after := Discovered(rows, d, found);
      SamePlace(rows, after, k) && RoomAt(after, k) <= RoomAt(rows, k)
  {
    if found != [] {
      DiscoveredRoom(rows, d, found[..|found| - 1], k);
      EnsuredRoom(Discovered(rows, d, found[..|found| - 1]), d, found[|found| - 1], Candidate, k);
    }
  }

  lemma ChosenRoom(rows: seq<Source>, dl: Rotating, found: seq<Offer>, now: int, f: Faults, k: nat)
    ensures var r := Chosen(rows, dl, found, now, f).0;
      SamePlace(rows, r, k) && RoomAt(r, k) <= RoomAt(rows, k) + if Unread(rows, dl, f, k) then 1 else 0
  {
    EnsuredRoom(rows, dl.id, dl.original, Active, k);
    var registered := Register(rows, dl, f);
    var parked := Park(registered, dl.id, now, f);
    if k < |registered| {
      ParkRowRoom(registered[k], dl.id, now, f);
    }
    DiscoveredRoom(parked, dl.id, found, k);
  }

  lemma ActivateRoom(rows: seq<Source>, d: int, s: Source, fault: nat, k: nat)
    requires Keyed(rows) && s in rows && Eligible(s, d)
    ensures var after := Activate(rows, d, s.id, fault);
      && |after| == |rows| && SamePlace(rows, after, k)
      && RoomAt(after, k) + (if fault != 1 && fault != 2 && k < |rows| && rows[k].id == s.id then 1 else 0)
         <= RoomAt(rows, k) + if ActiveAt(rows, d, k) then 1 else 0
  {
    var i :| 0 <= i < |rows| && rows[i] == s;
    assert k < |rows| && rows[k].id == s.id ==> k == i;
  }

  /** The k-th source is the one this attempt switched to. */
  ghost predicate SwitchedTo(rows: seq<Source>, a: Attempt, k: nat) {
    var (after, next) := Tried(rows, a);
    next.Some? && k < |after| && after[k].id == next.value.id
  }

  /** The k-th source was active in this attempt and not parked, or parked with its last tries unread. */
  ghost predicate Excused(rows: seq<Source>, a: Attempt, k: nat) {
    !a.faults.get && (StaysActive(rows, a.dl, a.faults, k) || Unread(rows, a.dl, a.faults, k))
  }

  /** Becoming active uses up one of a source's activations, and only such a failure gives one back. */
  lemma TriedRoom(rows: seq<Source>, a: Attempt, k: nat)
    requires Keyed(rows)
    ensures SamePlace(rows, Tried(rows, a).0, k)
    ensures RoomAt(Tried(rows, a).0, k) + (if SwitchedTo(rows, a, k) then 1 else 0)
         <= RoomAt(rows, k) + if Excused(rows, a, k) then 1 else 0
  {
    if !a.faults.get {
      ChosenKeyed(rows, a.dl, a.found, a.now, a.faults);
      ChosenRoom(rows, a.dl, a.found, a.now, a.faults, k);
      ChosenActive(rows, a.dl, a.found, a.now, a.faults, a.dl.id, k);
      var (r, next) := Chosen(rows, a.dl, a.found, a.now, a.faults);
      if next.Some? {
        ActivateRoom(r, a.dl.id, next.value, a.faults.activate, k);
      }
    }
  }

  /** How often a run switches to the k-th source. */
  ghost function Activations(rows: seq<Source>, run: seq<Attempt>, k: nat): nat {
    if run == [] then 0
    else
      var init := run[..|run| - 1];
      Activations(rows, init, k) + if SwitchedTo(After(rows, init), run[|run| - 1], k) then 1 else 0
  }

  /** In how many attempts such a failure met the k-th source. */
  ghost function Excuses(rows: seq<Source>, run: seq<Attempt>, k: nat): nat {
    if run == [] then 0
    else
      var init := run[..|run| - 1];
      Excuses(rows, init, k) + if Excused(After(rows, init), run[|run| - 1], k) then 1 else 0
  }

  lemma {:induction false} RunRoom(rows: seq<Source>, run: seq<Attempt>, k: nat)
    requires Keyed(rows)
    ensures Keyed(After(rows, run)) && SamePlace(rows, After(rows, run), k)
    ensures RoomAt(After(rows, run), k) + Activations(rows, run, k) <= RoomAt(rows, k) + Excuses(rows, run, k)
  {
    if run != [] {
      var init, a := run[..|run| - 1], run[|run| - 1];
      RunRoom(rows, init, k);
      RotatedKeyed(After(rows, init), a.dl, a.found, a.now, a.faults);
      TriedRoom(After(rows, init), a, k);
    }
  }

  /**
    * No source is switched to more than three times, but for once more each time it was active and not parked, or
    * parked with its last tries unread.
    */
  lemma ActivationsBounded(rows: seq<Source>, run: seq<Attempt>, k: nat)
    requires Keyed(rows)
    ensures SamePlace(rows, After(rows, run), k)
    ensures Activations(rows, run, k) <= 3 + Excuses(rows, run, k)
  {
    RunRoom(rows, run, k);
  }
}
