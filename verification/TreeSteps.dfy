/** The files of a completed torrent on their way: what an interrupted move leaves, and what it may disturb. */
module TreeSteps {
  import opened Options
  import opened Paths
  import opened Disk
  import opened FileMove
  import opened MoveNames

  /** A torrent's entry: padding (BEP 47), a path that leads outside, or a file with what was at its destination. */
  datatype Entry = Padding | Unsafe | Content(names: Names, data: Bytes, was: Option<Bytes>)

  predicate Moves(es: seq<Entry>, i: int) {
    0 <= i < |es| && es[i].Content?
  }

  /** Every file has five different names on its way. */
  ghost predicate Named(es: seq<Entry>) {
    forall i {:trigger es[i].names.Distinct()} | Moves(es, i) :: es[i].names.Distinct()
  }

  ghost predicate Arrived(es: seq<Entry>, files: Files, i: int) {
    Moves(es, i) ==> Holds(files, es[i].names.dst, es[i].data)
  }

  ghost predicate Complete(es: seq<Entry>, files: Files) {
    forall i | Moves(es, i) :: Holds(files, es[i].names.dst, es[i].data)
  }

  /** The first `n` entries are dealt with: padding skipped, files arrived. */
  ghost predicate Through(es: seq<Entry>, files: Files, n: int) {
    forall i | 0 <= i < n && i < |es| :: !es[i].Unsafe? && Arrived(es, files, i)
  }

  /** The files among the first `n` entries: all but padding. */
  function Counted(es: seq<Entry>, n: nat): nat
    requires n <= |es|
  {
    if n == 0 then 0 else Counted(es, n - 1) + if es[n - 1].Padding? then 0 else 1
  }

  /** The move gets past every entry up to this one. */
  predicate Reached(es: seq<Entry>, i: int) {
    forall k | 0 <= k <= i && k < |es| :: !es[k].Unsafe?
  }

  lemma EntryCounted(es: seq<Entry>, i: nat)
    requires i < |es| && Reached(es, i - 1) && !es[i].Unsafe?
    ensures Reached(es, i) && Counted(es, i + 1) == Counted(es, i) + if es[i].Padding? then 0 else 1
  {
  }

  // ---- When any operation may fail ----

  /** No two files share a name at any stage of their moves. */
  ghost predicate Separate(es: seq<Entry>) {
    && Named(es)
    && (forall i | Moves(es, i) :: SizeTells(es[i].data, es[i].was))
    && forall i, j | Moves(es, i) && Moves(es, j) && i != j :: es[i].names.All() !! es[j].names.All()
  }

  ghost predicate AllSafe(es: seq<Entry>, files: Files) {
    forall i | Moves(es, i) :: Safe(files, es[i].names, es[i].data, es[i].was)
  }

  lemma SparedSafe(before: Files, after: Files, touched: set<Path>, n: Names, data: Bytes, was: Option<Bytes>)
    requires Spared(before, after, touched) && n.All() !! touched && Safe(before, n, data, was)
    ensures Safe(after, n, data, was)
    ensures Holds(before, n.dst, data) ==> Holds(after, n.dst, data)
  {
  }

  /** A step within one entry's names leaves the others as safe, and as arrived, as they were. */
  lemma OthersSafe(es: seq<Entry>, before: Files, after: Files, i: nat)
    requires Separate(es) && Moves(es, i) && AllSafe(es, before) && Spared(before, after, es[i].names.All())
    requires Safe(after, es[i].names, es[i].data, es[i].was)
    requires Arrived(es, before, i) ==> Arrived(es, after, i)
    ensures AllSafe(es, after)
    ensures forall j | Arrived(es, before, j) :: Arrived(es, after, j)
  {
    forall j | Moves(es, j)
      ensures Safe(after, es[j].names, es[j].data, es[j].was) && (Arrived(es, before, j) ==> Arrived(es, after, j))
    {
      if j != i {
        assert es[j].names.All() !! es[i].names.All();
        SparedSafe(before, after, es[i].names.All(), es[j].names, es[j].data, es[j].was);
      }
    }
  }

  // ---- When renames and removals do not fail ----

  predicate CacheName(n: Names, p: Path) {
    p == n.src || p == n.Unfinished()
  }

  predicate DestName(n: Names, p: Path) {
    p == n.dst || p == n.Scratch() || p == n.Arriving()
  }

  /** Each file has a place of its own in the cache, and no name in the cache is one at the destination. */
  ghost predicate Proper(es: seq<Entry>) {
    && (forall i, j, p {:trigger CacheName(es[i].names, p), DestName(es[j].names, p)} |
          Moves(es, i) && Moves(es, j) && CacheName(es[i].names, p) :: !DestName(es[j].names, p))
    && forall i, j | Moves(es, i) && Moves(es, j) && i != j :: es[i].names.src != es[j].names.src
  }

  /** Where a file's move writes: a copy between devices goes by way of a scratch file. */
  function Writes(n: Names, sameDevice: bool): set<Path> {
    if sameDevice then {n.dst} else {n.dst, n.Scratch()}
  }

  /** A file's move does not write where one before it has arrived. */
  predicate Clear(es: seq<Entry>, m: int, same: bool)
    requires Moves(es, m)
  {
    forall i | 0 <= i < m && Moves(es, i) :: es[i].names.dst !in Writes(es[m].names, same)
  }

  /** Another file, after this one, is called in the cache what this one is called unfinished. */
  predicate Shadowed(es: seq<Entry>, i: int)
    requires Moves(es, i)
  {
    exists j :: i < j < |es| && Moves(es, j) && es[j].names.src == es[i].names.Unfinished()
  }

  predicate Orderly(es: seq<Entry>, same: bool) {
    forall i | 0 <= i < |es| && Moves(es, i) && Reached(es, i) :: Clear(es, i, same) && !Shadowed(es, i)
  }

  /** Where a file is when the first `m` entries have been dealt with. */
  function Place(es: seq<Entry>, i: int, m: int): Path
    requires Moves(es, i)
  {
    if i < m then es[i].names.dst else es[i].names.src
  }

  ghost predicate Owned(es: seq<Entry>, p: Path) {
    exists i :: Moves(es, i) && (CacheName(es[i].names, p) || DestName(es[i].names, p))
  }

  ghost predicate Placed(es: seq<Entry>, p: Path, m: int) {
    exists i :: Moves(es, i) && p == Place(es, i, m)
  }

  /** Taken besides, for the next file: by a copy whose source is not removed yet, or by an unfinished one. */
  ghost predicate Extra(es: seq<Entry>, p: Path, m: int, copied: bool, junk: bool) {
    Moves(es, m) && if copied then p == es[m].names.dst else junk && p == es[m].names.Scratch()
  }

  /** The first `m` entries are dealt with and the rest are in the cache; nothing else is left behind. */
  ghost predicate At(es: seq<Entry>, files: Files, m: nat, copied: bool, junk: bool) {
    && m <= |es| && Reached(es, m - 1)
    && (forall i {:trigger Place(es, i, m)} | Moves(es, i) :: Holds(files, Place(es, i, m), es[i].data))
    && (copied ==> Moves(es, m) && Holds(files, es[m].names.dst, es[m].data))
    && forall p {:trigger Owned(es, p)} | p in files && Owned(es, p) :: Placed(es, p, m) || Extra(es, p, m, copied, junk)
  }

  /** A file dealt with is gone from the cache under both its names, and is where it belongs. */
  lemma Behind(es: seq<Entry>, files: Files, m: nat, copied: bool, junk: bool, i: nat)
    requires Proper(es) && At(es, files, m, copied, junk) && Moves(es, i) && i < m && !Shadowed(es, i)
    ensures !InCache(files, es[i].names) && es[i].names.dst in files
  {
    assert Place(es, i, m) == es[i].names.dst;
    if InCache(files, es[i].names) {
      var p := if es[i].names.src in files then es[i].names.src else es[i].names.Unfinished();
      assert CacheName(es[i].names, p);
      assert Owned(es, p);
      NotExtra(es, m, copied, junk, i, p);
      var j := Holder(es, files, m, copied, junk, p);
      NotPlace(es, m, i, j, p);
    }
  }

  lemma NotExtra(es: seq<Entry>, m: nat, copied: bool, junk: bool, i: nat, p: Path)
    requires Proper(es) && Moves(es, i) && CacheName(es[i].names, p)
    ensures !Extra(es, p, m, copied, junk)
  {
    if Moves(es, m) {
      assert !DestName(es[m].names, p);
    }
  }

  lemma NotPlace(es: seq<Entry>, m: nat, i: nat, j: nat, p: Path)
    requires Proper(es) && Moves(es, i) && Moves(es, j) && i < m && !Shadowed(es, i)
    requires CacheName(es[i].names, p)
    ensures p != Place(es, j, m)
  {
    assert !DestName(es[j].names, p);
  }

  /** Whose place a taken name is; but for what the next file has taken besides. */
  lemma Holder(es: seq<Entry>, files: Files, m: nat, copied: bool, junk: bool, p: Path) returns (i: int)
    requires At(es, files, m, copied, junk) && p in files && Owned(es, p) && !Extra(es, p, m, copied, junk)
    ensures Moves(es, i) && p == Place(es, i, m)
  {
    i :| Moves(es, i) && p == Place(es, i, m);
  }

  /** Nothing is in the way of the next file. */
  lemma Free(es: seq<Entry>, files: Files, m: nat, same: bool, junk: bool)
    requires Proper(es) && At(es, files, m, false, junk) && Moves(es, m) && Clear(es, m, same)
    ensures es[m].names.dst !in files
  {
    SuffixDiffers(es[m].names.dst, PARTIAL);
    var p := es[m].names.dst;
    if p in files {
      assert DestName(es[m].names, p);
      assert Owned(es, p);
      var j := Holder(es, files, m, false, junk, p);
      NoPlaceThere(es, m, same, j);
    }
  }

  lemma NoPlaceThere(es: seq<Entry>, m: nat, same: bool, j: nat)
    requires Proper(es) && Moves(es, m) && Moves(es, j) && Clear(es, m, same)
    ensures Place(es, j, m) != es[m].names.dst
  {
    assert CacheName(es[j].names, es[j].names.src);
    assert !DestName(es[m].names, es[j].names.src);
  }

  /** The other files stay where they are as one is moved. */
  lemma OthersStay(es: seq<Entry>, before: Files, after: Files, m: nat, same: bool, i: nat)
    requires Proper(es) && Moves(es, m) && Clear(es, m, same) && Moves(es, i) && i != m
    requires Spared(before, after, {es[m].names.src} + Writes(es[m].names, same))
    requires Holds(before, Place(es, i, m), es[i].data)
    ensures Place(es, i, m + 1) == Place(es, i, m) && Holds(after, Place(es, i, m), es[i].data)
  {
    var p, n := Place(es, i, m), es[m].names;
    if i < m {
      assert DestName(es[i].names, p) && CacheName(n, n.src);
    } else {
      assert CacheName(es[i].names, p);
      assert !DestName(n, p);
    }
    assert p !in {n.src} + Writes(n, same);
  }

  /** One file's move, wherever it stops, ends before it, after it, or with the source still to be removed. */
  lemma CarriedOn(es: seq<Entry>, before: Files, after: Files, m: nat, same: bool, junk: bool)
    requires Proper(es) && At(es, before, m, false, junk) && Moves(es, m) && Clear(es, m, same)
    requires if junk then !same else same || es[m].names.src !in after
    requires es[m].names.src in before && Carried(before, after, es[m].names.src, es[m].names.dst, same)
    ensures if es[m].names.src !in after then At(es, after, m + 1, false, junk)
            else At(es, after, m, es[m].names.dst in after, junk)
  {
    var n := es[m].names;
    assert Reached(es, m) && Spared(before, after, {n.src} + Writes(n, same));
    assert Place(es, m, m) == n.src && Place(es, m, m + 1) == n.dst && Holds(before, n.src, es[m].data);
    var k, copied := if n.src in after then m else m + 1, n.src in after && n.dst in after;
    forall i | Moves(es, i) ensures Holds(after, Place(es, i, k), es[i].data) {
      if i != m {
        OthersStay(es, before, after, m, same, i);
      }
    }
    forall p | p in after && Owned(es, p) ensures Placed(es, p, k) || Extra(es, p, k, copied, junk) {
      CarriedName(es, before, after, m, same, junk, p, k, copied);
    }
  }

  lemma CarriedName(es: seq<Entry>, before: Files, after: Files, m: nat, same: bool, junk: bool, p: Path, k: nat, copied: bool)
    requires Moves(es, m) && p in after && (p in before ==> Placed(es, p, m) || Extra(es, p, m, false, junk))
    requires if junk then !same else same || es[m].names.src !in after
    requires es[m].names.src in before && Carried(before, after, es[m].names.src, es[m].names.dst, same)
    requires k == if es[m].names.src in after then m else m + 1
    requires copied == (es[m].names.src in after && es[m].names.dst in after)
    ensures Placed(es, p, k) || Extra(es, p, k, copied, junk)
  {
    var n := es[m].names;
    if p == n.src || p == n.dst {
      assert p == Place(es, m, k) || (copied && p == n.dst);
    } else if p in before && Placed(es, p, m) {
      StillPlaced(es, p, m, k);
    }
  }

  lemma StillPlaced(es: seq<Entry>, p: Path, m: nat, k: nat)
    requires Placed(es, p, m) && (Moves(es, m) ==> p != es[m].names.src) && m <= k <= m + 1
    ensures Placed(es, p, k)
  {
    var i :| Moves(es, i) && p == Place(es, i, m);
    assert p == Place(es, i, k);
  }

  /** A source whose copy has arrived is removed, or stays. */
  lemma DroppedOn(es: seq<Entry>, before: Files, after: Files, m: nat, same: bool)
    requires Proper(es) && At(es, before, m, true, !same) && Clear(es, m, same)
    requires Spared(before, after, {es[m].names.src})
    requires es[m].names.src in after ==> Holds(after, es[m].names.src, es[m].data)
    ensures if es[m].names.src !in after then At(es, after, m + 1, false, !same) else At(es, after, m, true, !same)
  {
    var n := es[m].names;
    var k, copied := if n.src in after then m else m + 1, n.src in after;
    assert Reached(es, m) && Spared(before, after, {n.src} + Writes(n, same));
    assert CacheName(n, n.src) && DestName(n, n.dst);
    forall i | Moves(es, i) ensures Holds(after, Place(es, i, k), es[i].data) {
      if i != m {
        OthersStay(es, before, after, m, same, i);
      }
    }
    forall p | p in after && Owned(es, p) ensures Placed(es, p, k) || Extra(es, p, k, copied, !same) {
      DroppedName(es, before, after, m, same, p, k, copied);
    }
  }

  lemma DroppedName(es: seq<Entry>, before: Files, after: Files, m: nat, same: bool, p: Path, k: nat, copied: bool)
    requires Moves(es, m) && p in after && (p in before ==> Placed(es, p, m) || Extra(es, p, m, true, !same))
    requires Spared(before, after, {es[m].names.src})
    requires k == (if es[m].names.src in after then m else m + 1) && copied == (es[m].names.src in after)
    ensures Placed(es, p, k) || Extra(es, p, k, copied, !same)
  {
    var n := es[m].names;
    if p == n.src || p == n.dst {
      assert p == Place(es, m, k) || (copied && p == n.dst);
    } else if Placed(es, p, m) {
      StillPlaced(es, p, m, k);
    }
  }

  /** At least the first `n` entries are dealt with. */
  ghost predicate OnTheWay(es: seq<Entry>, files: Files, n: int, junk: bool) {
    exists m, copied :: n <= m && At(es, files, m, copied, junk)
  }

  /** An attempt at entry `i`, wherever it stops, loses nothing; one that succeeds has dealt with the entry. */
  lemma EntryOn(es: seq<Entry>, before: Files, after: Files, i: nat, same: bool, done: bool)
    requires Proper(es) && Orderly(es, same) && Moves(es, i) && OnTheWay(es, before, i, !same)
    requires Tried(before, after, es[i].names, es[i].data, same, done)
    ensures OnTheWay(es, after, i, !same) && (done ==> OnTheWay(es, after, i + 1, !same))
  {
    var m, copied :| i <= m && At(es, before, m, copied, !same);
    if i < m {
      assert Reached(es, i);
      Behind(es, before, m, copied, !same, i);
    } else {
      EntryAt(es, before, after, m, copied, same, done);
    }
  }

  lemma EntryAt(es: seq<Entry>, before: Files, after: Files, m: nat, copied: bool, same: bool, done: bool)
    requires Proper(es) && Orderly(es, same) && Moves(es, m) && At(es, before, m, copied, !same)
    requires Tried(before, after, es[m].names, es[m].data, same, done)
    ensures At(es, after, m, false, !same) || At(es, after, m, true, !same) || At(es, after, m + 1, false, !same)
    ensures done ==> At(es, after, m + 1, false, !same)
  {
    assert Place(es, m, m) == es[m].names.src && Reached(es, m);
    if copied {
      DroppedOn(es, before, after, m, same);
    } else {
      Free(es, before, m, same, !same);
      CarriedOn(es, before, after, m, same, !same);
    }
  }

  lemma PaddingOn(es: seq<Entry>, files: Files, i: nat, junk: bool)
    requires i < |es| && es[i].Padding? && OnTheWay(es, files, i, junk)
    ensures OnTheWay(es, files, i + 1, junk)
  {
    var m, copied :| i <= m && At(es, files, m, copied, junk);
    if m == i {
      assert !copied;
      PaddingAt(es, files, i, junk);
    }
  }

  lemma PaddingAt(es: seq<Entry>, files: Files, m: nat, junk: bool)
    requires m < |es| && es[m].Padding? && At(es, files, m, false, junk)
    ensures At(es, files, m + 1, false, junk)
  {
    forall k | Moves(es, k) ensures Holds(files, Place(es, k, m + 1), es[k].data) {
      assert Place(es, k, m + 1) == Place(es, k, m);
    }
    forall p | p in files && Owned(es, p) ensures Placed(es, p, m + 1) {
      assert !Extra(es, p, m, false, junk);
      StillPlaced(es, p, m, m + 1);
    }
  }

  lemma AllThrough(es: seq<Entry>, files: Files, junk: bool)
    requires OnTheWay(es, files, |es|, junk)
    ensures Complete(es, files) && Through(es, files, |es|)
  {
    var m, copied :| |es| <= m && At(es, files, m, copied, junk);
    forall i | Moves(es, i) ensures Holds(files, es[i].names.dst, es[i].data) {
      assert Place(es, i, m) == es[i].names.dst;
    }
  }

  /** What any number of interruptions keeps: nothing is lost, and the move can go on. */
  ghost predicate Resumable(es: seq<Entry>, files: Files, same: bool, errors: bool) {
    || (Separate(es) && AllSafe(es, files))
    || (!errors && Proper(es) && Orderly(es, same) && OnTheWay(es, files, 0, !same))
  }

  /** From `before`, with `i` entries dealt with, to `after`, with `n`: no file is lost, or out of place again. */
  ghost predicate Advances(es: seq<Entry>, before: Files, after: Files, i: nat, n: nat, same: bool, errors: bool) {
    && (Separate(es) && AllSafe(es, before) ==>
          && AllSafe(es, after) && (Through(es, before, i) ==> Through(es, after, n))
          && forall j | Arrived(es, before, j) :: Arrived(es, after, j))
    && (!errors && Proper(es) && Orderly(es, same) && OnTheWay(es, before, i, !same) ==> OnTheWay(es, after, n, !same))
  }

  lemma AdvancesOn(es: seq<Entry>, a: Files, b: Files, c: Files, i: nat, j: nat, n: nat, same: bool, errors: bool)
    requires Advances(es, a, b, i, j, same, errors) && Advances(es, b, c, j, n, same, errors)
    ensures Advances(es, a, c, i, n, same, errors)
  {
  }

  lemma AdvancesKeeps(es: seq<Entry>, before: Files, after: Files, n: nat, same: bool, errors: bool)
    requires Advances(es, before, after, 0, n, same, errors) && Resumable(es, before, same, errors)
    ensures Resumable(es, after, same, errors) && (n == |es| ==> Complete(es, after))
  {
    if Separate(es) && AllSafe(es, before) {
      assert Through(es, before, 0);
      assert n == |es| ==> forall i | Moves(es, i) :: Arrived(es, after, i);
    } else {
      var m, copied :| n <= m && At(es, after, m, copied, !same);
      assert 0 <= m;
      if n == |es| {
        AllThrough(es, after, !same);
      }
    }
  }

  // ---- What a move leaves that nothing disturbs ----

  datatype Outcome = Outcome(files: Files, ok: bool)

  function EntryMoved(e: Entry, files: Files, same: bool): Outcome {
    match e
    case Padding => Outcome(files, true)
    case Unsafe => Outcome(files, false)
    case Content(n, _, _) => Outcome(Relocated(files, n, same), Found(files, n))
  }

  /** After the first `n` entries, or those up to the first that cannot be moved. */
  function TreeMoved(es: seq<Entry>, files: Files, same: bool, n: nat): Outcome
    requires n <= |es|
  {
    if n == 0 then Outcome(files, true)
    else
      var o := TreeMoved(es, files, same, n - 1);
      if o.ok then EntryMoved(es[n - 1], o.files, same) else o
  }

  lemma {:induction false} TreeStuck(es: seq<Entry>, files: Files, same: bool, k: nat, n: nat)
    requires k <= n <= |es| && !TreeMoved(es, files, same, k).ok
    ensures TreeMoved(es, files, same, n) == TreeMoved(es, files, same, k)
  {
    if k < n {
      TreeStuck(es, files, same, k, n - 1);
    }
  }

  /** Any number of attempts, each stopped before the entry it names, or run to its end. */
  function Attempts(es: seq<Entry>, files: Files, same: bool, stops: seq<nat>): Files {
    if stops == [] then files
    else
      var k := stops[|stops| - 1];
      TreeMoved(es, Attempts(es, files, same, stops[..|stops| - 1]), same, if k < |es| then k else |es|).files
  }
}
