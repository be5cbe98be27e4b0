/** What an attempt to rotate does to the sources, whichever of its statements fail. */
module RotationRules {
  import opened Options
  import opened SourceTable
  import opened Rotation

  // ---- Which sources are active ----

  lemma EnsuredActive(rows: seq<Source>, d: int, offer: Offer, status: SourceStatus, e: int, k: int)
    ensures ActiveAt(Ensured(rows, d, offer, status), e, k) <==>
              ActiveAt(rows, e, k) || (k == |rows| && !Known(rows, d, offer.infoHash) && e == d && status.Active?)
  {
  }

  lemma {:induction false} DiscoveredActive(rows: seq<Source>, d: int, found: seq<Offer>, e: int, k: int)
    ensures ActiveAt(Discovered(rows, d, found), e, k) <==> ActiveAt(rows, e, k)
  {
    if found != [] {
      DiscoveredActive(rows, d, found[..|found| - 1], e, k);
      EnsuredActive(Discovered(rows, d, found[..|found| - 1]), d, found[|found| - 1], Candidate, e, k);
    }
  }

  /** The attempt reaches the k-th source as an active one, and leaves it so. */
  ghost predicate StaysActive(rows: seq<Source>, dl: Rotating, f: Faults, k: int) {
    var registered := Register(rows, dl, f);
    ActiveAt(registered, dl.id, k) && f.Keeps(registered[k].id)
  }

  lemma ChosenActive(rows: seq<Source>, dl: Rotating, found: seq<Offer>, now: int, f: Faults, e: int, k: int)
    ensures ActiveAt(Chosen(rows, dl, found, now, f).0, e, k) <==>
              if e == dl.id then StaysActive(rows, dl, f, k) else ActiveAt(rows, e, k)
  {
    EnsuredActive(rows, dl.id, dl.original, Active, e, k);
    DiscoveredActive(Park(Register(rows, dl, f), dl.id, now, f), dl.id, found, e, k);
  }

  lemma ActivateActive(rows: seq<Source>, d: int, s: Source, fault: nat, e: int, k: int)
    requires Keyed(rows) && s in rows && Eligible(s, d) && fault != 1
    ensures ActiveAt(Activate(rows, d, s.id, fault), e, k) <==>
              if e == d then fault != 2 && 0 <= k < |rows| && rows[k].id == s.id else ActiveAt(rows, e, k)
  {
    var i :| 0 <= i < |rows| && rows[i] == s;
    assert 0 <= k < |rows| && rows[k].id == s.id ==> k == i;
  }

  /**
    * The query whether there are sources failed, and the original one was registered as active beside a source that
    * is. The loop that parks the active ones left both as they are.
    */
  ghost predicate TwoActive(rows: seq<Source>, dl: Rotating, f: Faults) {
    && f.has && !f.register && !Known(rows, dl.id, dl.original.infoHash)
    && (exists k :: ActiveAt(rows, dl.id, k))
    && forall k | ActiveAt(Register(rows, dl, f), dl.id, k) :: StaysActive(rows, dl, f, k)
  }

  lemma TwoActiveShow(rows: seq<Source>, dl: Rotating, found: seq<Offer>, now: int, f: Faults)
    requires TwoActive(rows, dl, f)
    ensures !OneActive(Chosen(rows, dl, found, now, f).0)
  {
    var k :| ActiveAt(rows, dl.id, k);
    EnsuredActive(rows, dl.id, dl.original, Active, dl.id, k);
    EnsuredActive(rows, dl.id, dl.original, Active, dl.id, |rows|);
    ChosenActive(rows, dl, found, now, f, dl.id, k);
    ChosenActive(rows, dl, found, now, f, dl.id, |rows|);
  }

  lemma OnlyTwoActive(rows: seq<Source>, dl: Rotating, f: Faults, i: int, j: int)
    requires OneActive(rows) && i < j && StaysActive(rows, dl, f, i) && StaysActive(rows, dl, f, j)
    ensures TwoActive(rows, dl, f)
  {
    EnsuredActive(rows, dl.id, dl.original, Active, dl.id, i);
    EnsuredActive(rows, dl.id, dl.original, Active, dl.id, j);
    assert j == |rows| && ActiveAt(rows, dl.id, i);
    forall k | ActiveAt(Register(rows, dl, f), dl.id, k) ensures k == i || k == j {
      EnsuredActive(rows, dl.id, dl.original, Active, dl.id, k);
      assert k < i || k == i || i < k;
    }
  }

  lemma ChosenOneActive(rows: seq<Source>, dl: Rotating, found: seq<Offer>, now: int, f: Faults)
    requires OneActive(rows)
    ensures OneActive(Chosen(rows, dl, found, now, f).0) <==> !TwoActive(rows, dl, f)
  {
    var r := Chosen(rows, dl, found, now, f).0;
    if TwoActive(rows, dl, f) {
      TwoActiveShow(rows, dl, found, now, f);
    } else {
      forall i, j, d | i < j && ActiveAt(r, d, i) ensures !ActiveAt(r, d, j) {
        ChosenActive(rows, dl, found, now, f, d, i);
        ChosenActive(rows, dl, found, now, f, d, j);
        if d == dl.id && ActiveAt(r, d, j) {
          OnlyTwoActive(rows, dl, f, i, j);
        }
      }
    }
  }

  lemma ActivateOneActive(rows: seq<Source>, dl: Rotating, found: seq<Offer>, now: int, f: Faults)
    requires Keyed(rows) && OneActive(rows) && f.activate != 1
    ensures var (r, next) := Chosen(rows, dl, found, now, f);
            next.Some? ==> OneActive(Activate(r, dl.id, next.value.id, f.activate))
  {
    ChosenKeyed(rows, dl, found, now, f);
    var (r, next) := Chosen(rows, dl, found, now, f);
    if next.Some? {
      var after := Activate(r, dl.id, next.value.id, f.activate);
      forall i, j, d | i < j && ActiveAt(after, d, i) ensures !ActiveAt(after, d, j) {
        ActivateActive(r, dl.id, next.value, f.activate, d, i);
        ActivateActive(r, dl.id, next.value, f.activate, d, j);
        ChosenActive(rows, dl, found, now, f, d, i);
        ChosenActive(rows, dl, found, now, f, d, j);
      }
    }
  }

  /** Two sources are left active exactly by such a registration, if the attempt does not get to deactivating them. */
  lemma OneActiveExactly(rows: seq<Source>, dl: Rotating, found: seq<Offer>, now: int, f: Faults)
    requires Keyed(rows) && OneActive(rows) && !f.get
    ensures OneActive(Rotated(rows, dl, found, now, f).0) <==>
              !(TwoActive(rows, dl, f) && (Chosen(rows, dl, found, now, f).1.None? || f.activate == 1))
  {
    ChosenOneActive(rows, dl, found, now, f);
    if f.activate != 1 {
      ActivateOneActive(rows, dl, found, now, f);
    }
  }

  // ---- When a source fails ----

  /** The k-th source was parked at its last try, or after it, when the tries so far could not be read. */
  ghost predicate Unread(rows: seq<Source>, dl: Rotating, f: Faults, k: int) {
    var registered := Register(rows, dl, f);
    && ActiveAt(registered, dl.id, k) && !f.Keeps(registered[k].id)
    && registered[k].id in f.unread && registered[k].tries + 1 >= MAX_TRIES
  }

  ghost predicate AllSound(rows: seq<Source>) {
    forall r <- rows :: RowSound(r)
  }

  lemma EnsuredSound(rows: seq<Source>, d: int, offer: Offer, status: SourceStatus)
    requires !status.Failed?
    ensures AllSound(Ensured(rows, d, offer, status)) <==> AllSound(rows)
  {
    var after := Ensured(rows, d, offer, status);
    forall i | 0 <= i < |rows| ensures RowSound(after[i]) <==> RowSound(rows[i]) {
    }
    assert forall i | 0 <= i < |rows| :: rows[i] in rows && after[i] in after;
  }

  lemma {:induction false} DiscoveredSound(rows: seq<Source>, d: int, found: seq<Offer>)
    ensures AllSound(Discovered(rows, d, found)) <==> AllSound(rows)
  {
    if found != [] {
      DiscoveredSound(rows, d, found[..|found| - 1]);
      EnsuredSound(Discovered(rows, d, found[..|found| - 1]), d, found[|found| - 1], Candidate);
    }
  }

  lemma ParkSound(rows: seq<Source>, dl: Rotating, now: int, f: Faults)
    requires AllSound(rows)
    ensures var registered := Register(rows, dl, f);
            AllSound(Park(registered, dl.id, now, f)) <==> forall k :: !Unread(rows, dl, f, k)
  {
    var registered := Register(rows, dl, f);
    var parked := Park(registered, dl.id, now, f);
    EnsuredSound(rows, dl.id, dl.original, Active);
    forall k | 0 <= k < |registered| ensures RowSound(parked[k]) <==> !Unread(rows, dl, f, k) {
      assert registered[k] in registered;
    }
    assert forall k | 0 <= k < |parked| :: parked[k] in parked;
  }

  lemma ActivateSound(rows: seq<Source>, d: int, s: Source, fault: nat)
    requires Keyed(rows) && s in rows && Eligible(s, d)
    ensures AllSound(Activate(rows, d, s.id, fault)) <==> AllSound(rows)
  {
    var after := Activate(rows, d, s.id, fault);
    var i :| 0 <= i < |rows| && rows[i] == s;
    forall k | 0 <= k < |rows| ensures RowSound(after[k]) <==> RowSound(rows[k]) {
      assert rows[k].id == s.id ==> k == i;
    }
    assert forall k | 0 <= k < |rows| :: rows[k] in rows && after[k] in after;
  }

  /** Sources fail exactly at their last try, exactly as long as the tries can be read then. */
  lemma SoundExactly(rows: seq<Source>, dl: Rotating, found: seq<Offer>, now: int, f: Faults)
    requires Keyed(rows) && AllSound(rows) && !f.get
    ensures AllSound(Rotated(rows, dl, found, now, f).0) <==> forall k :: !Unread(rows, dl, f, k)
  {
    ParkSound(rows, dl, now, f);
    DiscoveredSound(Park(Register(rows, dl, f), dl.id, now, f), dl.id, found);
    ChosenKeyed(rows, dl, found, now, f);
    var (r, next) := Chosen(rows, dl, found, now, f);
    if next.Some? {
      ActivateSound(r, dl.id, next.value, f.activate);
    }
  }

  /**
    * Whatever fails, ids and torrents stay unique. At most one source of a download stays active, and sources fail
    * exactly at their last try, but for the two failures that break the one and the other.
    */
  lemma RotatedValid(rows: seq<Source>, dl: Rotating, found: seq<Offer>, now: int, f: Faults)
    requires Valid(rows)
    ensures var after := Rotated(rows, dl, found, now, f).0;
      && Keyed(after)
      && (Valid(after) <==>
            f.get || ((forall k :: !Unread(rows, dl, f, k))
                      && !(TwoActive(rows, dl, f) && (Chosen(rows, dl, found, now, f).1.None? || f.activate == 1))))
  {
    RotatedKeyed(rows, dl, found, now, f);
    if !f.get {
      OneActiveExactly(rows, dl, found, now, f);
      SoundExactly(rows, dl, found, now, f);
    }
  }

  // ---- The two failures ----

  /** Its tries unread at the third try, a source cools down instead of failing, and half an hour later is tried again. */
  lemma TriedOnceMore(d: int, offer: Offer, now: int, f: Faults)
    requires f == Faults(false, false, false, false, {1}, {}, false, false, 0)
    ensures var dl, rows := Rotating(d, offer), [Source(1, d, offer, Active, MAX_TRIES - 1, None)];
            var first := Rotated(rows, dl, [], now, f).0;
            && Valid(rows) && first == [Source(1, d, offer, Cooldown, MAX_TRIES, Some(now))]
            && Rotated(first, dl, [], now + COOLDOWN, f) == ([first[0].(status := Active)], Some(first[0]))
  {
    var dl, rows := Rotating(d, offer), [Source(1, d, offer, Active, MAX_TRIES - 1, None)];
    assert rows[0] in rows;
    CoolsDown(d, offer, now, f);
    ReadyAgain(d, offer, now, f);
  }

  lemma CoolsDown(d: int, offer: Offer, now: int, f: Faults)
    requires f == Faults(false, false, false, false, {1}, {}, false, false, 0)
    ensures Rotated([Source(1, d, offer, Active, MAX_TRIES - 1, None)], Rotating(d, offer), [], now, f).0
         == [Source(1, d, offer, Cooldown, MAX_TRIES, Some(now))]
  {
    var rows, first := [Source(1, d, offer, Active, MAX_TRIES - 1, None)], [Source(1, d, offer, Cooldown, MAX_TRIES, Some(now))];
    assert rows[0] in rows && Register(rows, Rotating(d, offer), f) == rows;
    assert Park(rows, d, now, f) == first;
    OnlySource(first, d, now);
  }

  lemma ReadyAgain(d: int, offer: Offer, now: int, f: Faults)
    requires f == Faults(false, false, false, false, {1}, {}, false, false, 0)
    ensures var first := [Source(1, d, offer, Cooldown, MAX_TRIES, Some(now))];
      Rotated(first, Rotating(d, offer), [], now + COOLDOWN, f) == ([first[0].(status := Active)], Some(first[0]))
  {
    var first := [Source(1, d, offer, Cooldown, MAX_TRIES, Some(now))];
    assert first[0] in first && Register(first, Rotating(d, offer), f) == first;
    assert Park(first, d, now + COOLDOWN, f) == first;
    OnlySource(first, d, now + COOLDOWN);
    assert Activate(first, d, 1, 0) == [first[0].(status := Active)];
  }

  lemma OnlySource(rows: seq<Source>, d: int, now: int)
    requires |rows| == 1 && Eligible(rows[0], d)
    ensures PickNext(rows, d, now) == if Cooling(rows[0], now) then None else Some(rows[0])
  {
    PickNextBest(rows, d, now);
    assert rows[0] in rows;
  }

  /** With a source from a search active, a failed query for sources and then a failed listing leave two active. */
  lemma TwoLeftActive(d: int, original: Offer, other: Offer, now: int, f: Faults)
    requires original.infoHash != other.infoHash && f == Faults(false, true, false, true, {}, {}, false, false, 0)
    ensures var dl, rows := Rotating(d, original), [Source(1, d, other, Active, 0, None)];
            && Valid(rows)
            && Rotated(rows, dl, [], now, f) == (rows + [Source(2, d, original, Active, 0, None)], None)
  {
    var dl, rows := Rotating(d, original), [Source(1, d, other, Active, 0, None)];
    assert NewId(rows) == 2 by { assert rows[..0] == [] && NewId(rows[..0]) == 1; }
    var registered := rows + [Source(2, d, original, Active, 0, None)];
    assert Register(rows, dl, f) == registered;
    assert Park(registered, d, now, f) == registered;
    PickNextBest(registered, d, now);
  }

  // ---- What an attempt chooses ----

  lemma {:induction false} DiscoveredKeeps(rows: seq<Source>, d: int, found: seq<Offer>, k: nat)
    requires k < |rows|
    ensures var after := Discovered(rows, d, found);
            k < |after| && after[k] == rows[k].(offer := after[k].offer)
  {
    if found != [] {
      DiscoveredKeeps(rows, d, found[..|found| - 1], k);
    }
  }

  /** Nothing is searched for while a source is ready, and then that is the one picked. */
  lemma SearchesLast(rows: seq<Source>, dl: Rotating, found: seq<Offer>, now: int, f: Faults)
    requires !f.pick
    ensures var parked := Park(Register(rows, dl, f), dl.id, now, f);
      (exists x <- parked :: Ready(x, dl.id, now)) ==>
        Chosen(rows, dl, found, now, f) == (parked, PickNext(parked, dl.id, now)) && PickNext(parked, dl.id, now).Some?
  {
    PickedExactly(Park(Register(rows, dl, f), dl.id, now, f), dl.id, now);
  }

  /** A source parked now is not picked now: it has failed, or it is cooling down. */
  lemma ParkedNotPicked(rows: seq<Source>, dl: Rotating, found: seq<Offer>, now: int, f: Faults, k: nat)
    requires ActiveAt(rows, dl.id, k) && !f.Keeps(rows[k].id)
    ensures var (r, next) := Chosen(rows, dl, found, now, f);
            && k < |r| && r[k].id == rows[k].id && r[k].tries == rows[k].tries + 1
            && r[k].status == (if rows[k].tries + 1 >= MAX_TRIES && rows[k].id !in f.unread then Failed else Cooldown)
            && (next.Some? ==> next.value != r[k])
  {
    ChosenKeeps(rows, dl, found, now, f, k);
    var parked := Park(Register(rows, dl, f), dl.id, now, f);
    PickNextBest(parked, dl.id, now);
    PickNextBest(Discovered(parked, dl.id, found), dl.id, now);
  }

  /** Parking is all that becomes of a source up to the choice. */
  lemma ChosenKeeps(rows: seq<Source>, dl: Rotating, found: seq<Offer>, now: int, f: Faults, k: nat)
    requires k < |rows|
    ensures var r := Chosen(rows, dl, found, now, f).0;
            k < |r| && r[k] == ParkRow(rows[k], dl.id, now, f).(offer := r[k].offer)
  {
    ParkedKeeps(rows, dl, now, f, k);
    DiscoveredKeeps(Park(Register(rows, dl, f), dl.id, now, f), dl.id, found, k);
  }

  lemma ParkedKeeps(rows: seq<Source>, dl: Rotating, now: int, f: Faults, k: nat)
    requires k < |rows|
    ensures var parked := Park(Register(rows, dl, f), dl.id, now, f);
            k < |parked| && parked[k] == ParkRow(rows[k], dl.id, now, f).(offer := parked[k].offer)
  {
    var registered := Register(rows, dl, f);
    assert k < |registered| && registered[k] == rows[k].(offer := registered[k].offer);
  }

  /** A successful attempt leaves the source chosen active, and no other of the download. */
  lemma SwitchesTo(rows: seq<Source>, dl: Rotating, found: seq<Offer>, now: int, f: Faults)
    requires Keyed(rows)
    ensures var (after, next) := Rotated(rows, dl, found, now, f);
            next.Some? ==> (exists k :: ActiveAt(after, dl.id, k))
                           && forall k | ActiveAt(after, dl.id, k) :: after[k].id == next.value.id
  {
    ChosenKeyed(rows, dl, found, now, f);
    var (r, s) := Chosen(rows, dl, found, now, f);
    if Rotated(rows, dl, found, now, f).1.Some? {
      OnlyItActive(r, dl.id, s.value, f.activate);
    }
  }

  lemma OnlyItActive(rows: seq<Source>, d: int, s: Source, fault: nat)
    requires Keyed(rows) && s in rows && Eligible(s, d) && fault != 1 && fault != 2
    ensures var after := Activate(rows, d, s.id, fault);
            (exists k :: ActiveAt(after, d, k)) && forall k | ActiveAt(after, d, k) :: after[k].id == s.id
  {
    var after := Activate(rows, d, s.id, fault);
    var i :| 0 <= i < |rows| && rows[i] == s;
    ActivateActive(rows, d, s, fault, d, i);
    forall k | ActiveAt(after, d, k) ensures after[k].id == s.id {
      ActivateActive(rows, d, s, fault, d, k);
    }
  }

  lemma OtherId(rows: seq<Source>, s: Source, k: nat)
    requires Keyed(rows) && s in rows && k < |rows| && rows[k] != s
    ensures rows[k].id != s.id
  {
    var i :| 0 <= i < |rows| && rows[i] == s;
    assert i < k || k < i;
  }

  /** And it is not a source that was active before, unless parking that one failed. */
  lemma SwitchesAway(rows: seq<Source>, dl: Rotating, found: seq<Offer>, now: int, f: Faults, k: nat)
    requires Keyed(rows) && ActiveAt(rows, dl.id, k) && !f.Keeps(rows[k].id)
    ensures var next := Rotated(rows, dl, found, now, f).1;
            next.Some? ==> next.value.id != rows[k].id
  {
    ChosenKeyed(rows, dl, found, now, f);
    ParkedNotPicked(rows, dl, found, now, f, k);
    var (r, next) := Chosen(rows, dl, found, now, f);
    if next.Some? {
      OtherId(r, next.value, k);
    }
  }

  // ---- Failure is for good ----

  ghost predicate StaysFailed(rows: seq<Source>, after: seq<Source>, k: nat)
    requires k < |rows|
  {
    k < |after| && after[k].id == rows[k].id && after[k].status.Failed? && after[k].tries == rows[k].tries
  }

  lemma ChosenFailed(rows: seq<Source>, dl: Rotating, found: seq<Offer>, now: int, f: Faults, k: nat)
    requires k < |rows| && rows[k].status.Failed?
    ensures StaysFailed(rows, Chosen(rows, dl, found, now, f).0, k)
  {
    ChosenKeeps(rows, dl, found, now, f, k);
  }

  lemma ActivateFailed(rows: seq<Source>, d: int, s: Source, fault: nat, k: nat)
    requires Keyed(rows) && s in rows && Eligible(s, d) && k < |rows| && rows[k].status.Failed?
    ensures StaysFailed(rows, Activate(rows, d, s.id, fault), k)
  {
    OtherId(rows, s, k);
  }

  /** No attempt, whatever fails in it, brings a failed source back. */
  lemma FailedStays(rows: seq<Source>, dl: Rotating, found: seq<Offer>, now: int, f: Faults, k: nat)
    requires Keyed(rows) && k < |rows| && rows[k].status.Failed?
    ensures StaysFailed(rows, Rotated(rows, dl, found, now, f).0, k)
  {
    ChosenKeyed(rows, dl, found, now, f);
    ChosenFailed(rows, dl, found, now, f, k);
    var (r, next) := Chosen(rows, dl, found, now, f);
    if next.Some? {
      ActivateFailed(r, dl.id, next.value, f.activate, k);
    }
  }
}
