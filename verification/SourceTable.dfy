/** The `download_sources` table: its statements, and the choice of the next source to try. */
module SourceTable {
  import opened Options
  import opened Sorting

  const COOLDOWN := 30 * 60_000_000_000
  const MAX_TRIES := 3

  datatype SourceStatus = Active | Candidate | Cooldown | Failed

  /** Where a source can be had from. */
  datatype Offer = Offer(infoHash: string, magnet: string, seeders: int)

  datatype Source = Source(id: int, download: int, offer: Offer, status: SourceStatus, tries: nat, lastTried: Option<int>)

  // ---- The table and its statements ----

  ghost predicate RowSound(r: Source) {
    if r.status.Failed? then r.tries == MAX_TRIES else r.tries < MAX_TRIES
  }

  /** Ids are unique, and a download knows a torrent once. */
  ghost predicate Keyed(rows: seq<Source>) {
    forall i, j | 0 <= i < j < |rows| ::
      rows[i].id != rows[j].id && !(rows[i].download == rows[j].download && rows[i].offer.infoHash == rows[j].offer.infoHash)
  }

  /** The k-th row is an active source of the download. */
  predicate ActiveAt(rows: seq<Source>, d: int, k: int) {
    0 <= k < |rows| && rows[k].download == d && rows[k].status.Active?
  }

  ghost predicate OneActive(rows: seq<Source>) {
    forall i, j, d | i < j && ActiveAt(rows, d, i) :: !ActiveAt(rows, d, j)
  }

  ghost predicate Valid(rows: seq<Source>) {
    Keyed(rows) && OneActive(rows) && forall r <- rows :: RowSound(r)
  }

  predicate HasSources(rows: seq<Source>, d: int) {
    exists r <- rows :: r.download == d
  }

  predicate Known(rows: seq<Source>, d: int, hash: string) {
    exists r <- rows :: r.download == d && r.offer.infoHash == hash
  }

  function NewId(rows: seq<Source>): (id: int)
    ensures forall r <- rows :: r.id < id
  {
    if rows == [] then 1
    else
      assert rows == rows[..|rows| - 1] + [rows[|rows| - 1]];
      var id := NewId(rows[..|rows| - 1]);
      if rows[|rows| - 1].id >= id then rows[|rows| - 1].id + 1 else id
  }

  /** A known torrent only has its seeders refreshed; a new one gets a row in the given status. */
  function Ensured(rows: seq<Source>, d: int, offer: Offer, status: SourceStatus): seq<Source> {
    if Known(rows, d, offer.infoHash) then Refreshed(rows, d, offer)
    else rows + [Source(NewId(rows), d, offer, status, 0, None)]
  }

  function RefreshRow(r: Source, d: int, offer: Offer): Source {
    if r.download == d && r.offer.infoHash == offer.infoHash then r.(offer := r.offer.(seeders := offer.seeders)) else r
  }

  function Refreshed(rows: seq<Source>, d: int, offer: Offer): (r: seq<Source>)
    ensures |r| == |rows| && forall i | 0 <= i < |rows| :: r[i] == RefreshRow(rows[i], d, offer)
  {
    seq(|rows|, i requires 0 <= i < |rows| => RefreshRow(rows[i], d, offer))
  }

  /** One more try; the last one allowed ends in failure, unless the tries so far could not be read. */
  function MarkRow(r: Source, now: int, read: bool): Source {
    r.(tries := r.tries + 1, lastTried := Some(now), status := if read && r.tries + 1 >= MAX_TRIES then Failed else Cooldown)
  }

  function Marked(rows: seq<Source>, id: int, now: int, read: bool): (r: seq<Source>)
    ensures |r| == |rows|
    ensures forall i | 0 <= i < |rows| :: r[i] == if rows[i].id == id then MarkRow(rows[i], now, read) else rows[i]
  {
    seq(|rows|, i requires 0 <= i < |rows| => if rows[i].id == id then MarkRow(rows[i], now, read) else rows[i])
  }

  function DeactivateRow(r: Source, d: int): Source {
    if r.download == d && r.status.Active? then r.(status := Candidate) else r
  }

  function Deactivated(rows: seq<Source>, d: int): (r: seq<Source>)
    ensures |r| == |rows| && forall i | 0 <= i < |rows| :: r[i] == DeactivateRow(rows[i], d)
  {
    seq(|rows|, i requires 0 <= i < |rows| => DeactivateRow(rows[i], d))
  }

  function ActivateRow(r: Source, id: int): Source {
    if r.id == id then r.(status := Active) else r
  }

  function Activated(rows: seq<Source>, id: int): (r: seq<Source>)
    ensures |r| == |rows| && forall i | 0 <= i < |rows| :: r[i] == ActivateRow(rows[i], id)
  {
    seq(|rows|, i requires 0 <= i < |rows| => ActivateRow(rows[i], id))
  }

  /** A torrent the download knows has its seeders brought up to date; one it does not know becomes its newest source. */
  lemma EnsuredIs(rows: seq<Source>, d: int, offer: Offer, status: SourceStatus)
    ensures var after := Ensured(rows, d, offer, status);
      if exists r <- rows :: r.download == d && r.offer.infoHash == offer.infoHash then
        && |after| == |rows|
        && forall i | 0 <= i < |rows| :: after[i] ==
             if rows[i].download == d && rows[i].offer.infoHash == offer.infoHash
             then rows[i].(offer := rows[i].offer.(seeders := offer.seeders)) else rows[i]
      else
        && |after| == |rows| + 1 && after[..|rows|] == rows
        && after[|rows|].(id := 0) == Source(0, d, offer, status, 0, None)
        && forall i | 0 <= i < |rows| :: rows[i].id < after[|rows|].id
  {
    assert forall i | 0 <= i < |rows| :: rows[i] in rows;
  }

  // ---- The next source to try ----

  predicate TriedLess(a: Option<int>, b: Option<int>) {
    b.Some? && (a.None? || a.value < b.value)
  }

  /** More seeders first, then the one tried longest ago, never tried before all, then the lower id. */
  predicate Preferred(a: Source, b: Source) {
    if a.offer.seeders != b.offer.seeders then a.offer.seeders > b.offer.seeders
    else if a.lastTried != b.lastTried then TriedLess(a.lastTried, b.lastTried)
    else a.id < b.id
  }

  predicate Eligible(r: Source, d: int) {
    r.download == d && (r.status.Candidate? || r.status.Cooldown?)
  }

  predicate Cooling(r: Source, now: int) {
    r.status.Cooldown? && r.lastTried.Some? && r.lastTried.value > now - COOLDOWN
  }

  function EligibleRows(rows: seq<Source>, d: int): (r: seq<Source>)
    ensures forall x :: x in r <==> x in rows && Eligible(x, d)
  {
    if rows == [] then []
    else
      var init, last := rows[..|rows| - 1], rows[|rows| - 1];
      assert rows == init + [last];
      if Eligible(last, d) then EligibleRows(init, d) + [last] else EligibleRows(init, d)
  }

  function RowsOf(rows: seq<Source>, d: int): (r: seq<Source>)
    ensures forall x :: x in r <==> x in rows && x.download == d
  {
    if rows == [] then []
    else
      var init, last := rows[..|rows| - 1], rows[|rows| - 1];
      assert rows == init + [last];
      if last.download == d then RowsOf(init, d) + [last] else RowsOf(init, d)
  }

  lemma {:induction false} RowsOfNoDup(rows: seq<Source>, d: int)
    requires Keyed(rows)
    ensures NoDup(RowsOf(rows, d))
  {
    if rows != [] {
      var init, last := rows[..|rows| - 1], rows[|rows| - 1];
      RowsOfNoDup(init, d);
      forall r | r in RowsOf(init, d) ensures r != last {
        var i :| 0 <= i < |init| && init[i] == r;
        assert rows[i].id != last.id;
      }
    }
  }

  function FirstReady(rows: seq<Source>, now: int): Option<Source> {
    if rows == [] then None else if Cooling(rows[0], now) then FirstReady(rows[1..], now) else Some(rows[0])
  }

  function PickNext(rows: seq<Source>, d: int, now: int): Option<Source> {
    FirstReady(StableSort(EligibleRows(rows, d), Preferred), now)
  }

  lemma {:induction false} FirstReadyBest(sorted: seq<Source>, now: int)
    requires Sorted(sorted, Preferred)
    ensures var r := FirstReady(sorted, now);
      if r.None? then forall x <- sorted :: Cooling(x, now)
      else r.value in sorted && !Cooling(r.value, now) && forall x <- sorted :: !Cooling(x, now) ==> !Preferred(x, r.value)
  {
    if sorted != [] {
      assert sorted == [sorted[0]] + sorted[1..];
      if Cooling(sorted[0], now) {
        FirstReadyBest(sorted[1..], now);
      } else {
        assert !Preferred(sorted[0], sorted[0]);
      }
    }
  }

  lemma EligibleSorted(rows: seq<Source>, d: int)
    ensures var sorted := StableSort(EligibleRows(rows, d), Preferred);
            Sorted(sorted, Preferred) && forall x :: x in sorted <==> x in rows && Eligible(x, d)
  {
    var some := EligibleRows(rows, d);
    var sorted := StableSort(some, Preferred);
    SortSorted(some, Preferred);
    SameElems(some, sorted);
    assert forall x :: x in sorted <==> x in Elems(sorted);
    assert forall x :: x in some <==> x in Elems(some);
  }

  /** The source picked is ready, and nothing ready is preferred to it; there is none exactly when nothing is ready. */
  lemma PickNextBest(rows: seq<Source>, d: int, now: int)
    ensures var r := PickNext(rows, d, now);
      if r.None? then forall x <- rows :: Eligible(x, d) ==> Cooling(x, now)
      else r.value in rows && Eligible(r.value, d) && !Cooling(r.value, now)
           && forall x <- rows :: Eligible(x, d) && !Cooling(x, now) ==> !Preferred(x, r.value)
  {
    EligibleSorted(rows, d);
    FirstReadyBest(StableSort(EligibleRows(rows, d), Preferred), now);
  }

  /** A source of the download that may be switched to: neither active nor failed, and not tried in the last half hour. */
  ghost predicate Ready(x: Source, d: int, now: int) {
    && x.download == d && x.status != Active && x.status != Failed
    && (x.status == Cooldown && x.lastTried.Some? ==> x.lastTried.value <= now - 1_800_000_000_000)
  }

  /**
    * The source picked has the most seeders of those ready; of several, it has waited longest, one never tried before
    * all; of several, it is the oldest. None is picked exactly when none is ready.
    */
  lemma PickedExactly(rows: seq<Source>, d: int, now: int)
    ensures var r := PickNext(rows, d, now);
      if r.None? then forall x <- rows :: !Ready(x, d, now)
      else r.value in rows && Ready(r.value, d, now) && forall x | x in rows && Ready(x, d, now) ::
        || x.offer.seeders < r.value.offer.seeders
        || (x.offer.seeders == r.value.offer.seeders
            && (|| (r.value.lastTried.None? && x.lastTried.Some?)
                || (r.value.lastTried.Some? && x.lastTried.Some? && r.value.lastTried.value < x.lastTried.value)
                || (r.value.lastTried == x.lastTried && r.value.id <= x.id)))
  {
    PickNextBest(rows, d, now);
    var r := PickNext(rows, d, now);
    forall x | x in rows ensures Ready(x, d, now) <==> Eligible(x, d) && !Cooling(x, now) {
    }
  }
}
