/** Which lists of files survive every interruption of their move, and which lose one. */
module TreeOrder {
  import opened Paths
  import opened Disk
  import opened FileMove
  import opened TreeSteps

  // ---- Undisturbed steps ----

  /** An undisturbed step takes the next file to its place. */
  lemma CalmMove(es: seq<Entry>, files: Files, m: nat, same: bool)
    requires Proper(es) && Named(es) && At(es, files, m, false, false) && Moves(es, m) && Clear(es, m, same)
    ensures EntryMoved(es[m], files, same).ok && At(es, EntryMoved(es[m], files, same).files, m + 1, false, false)
  {
    var n := es[m].names;
    Free(es, files, m, same, false);
    assert Place(es, m, m) == n.src;
    var after := EntryMoved(es[m], files, same).files;
    assert n.Distinct();
    MovedCarries(files, n, same);
    CarriedOn(es, files, after, m, same, false);
  }

  lemma MovedCarries(files: Files, n: Names, same: bool)
    requires n.Distinct() && n.src in files && files[n.src].synced && n.dst !in files
    ensures var after := Relocated(files, n, same);
      after == Moved(files, n.src, n.dst, same) && n.src !in after && Carried(files, after, n.src, n.dst, same)
  {
    DistinctNames(n);
  }

  lemma DistinctNames(n: Names)
    requires n.Distinct()
    ensures n.src != n.dst && n.src != n.Scratch() && n.dst != n.Scratch() && n.src != n.Unfinished()
    ensures n.Unfinished() != n.dst && n.Unfinished() != n.Scratch()
  {
  }

  /** Nothing keeps an attempt from dealing with the first `n` entries. */
  ghost predicate Unhindered(es: seq<Entry>, n: nat, same: bool) {
    forall i | 0 <= i < n && i < |es| :: !es[i].Unsafe? && (Moves(es, i) ==> Clear(es, i, same))
  }

  lemma UnhinderedLast(es: seq<Entry>, n: nat, same: bool)
    requires 0 < n <= |es| && Unhindered(es, n, same)
    ensures Unhindered(es, n - 1, same) && !es[n - 1].Unsafe? && (Moves(es, n - 1) ==> Clear(es, n - 1, same))
  {
  }

  /** Up to the first entry that cannot be moved or is in the way, an undisturbed attempt deals with entry after entry. */
  lemma {:induction false} FirstAttempt(es: seq<Entry>, files: Files, n: nat, same: bool)
    requires Proper(es) && Named(es) && At(es, files, 0, false, false) && n <= |es| && Unhindered(es, n, same)
    ensures TreeMoved(es, files, same, n).ok && At(es, TreeMoved(es, files, same, n).files, n, false, false)
  {
    if n > 0 {
      UnhinderedLast(es, n, same);
      FirstAttempt(es, files, n - 1, same);
      NextCalm(es, TreeMoved(es, files, same, n - 1).files, n - 1, same);
    }
  }

  lemma NextCalm(es: seq<Entry>, files: Files, m: nat, same: bool)
    requires Proper(es) && Named(es) && m < |es| && At(es, files, m, false, false) && !es[m].Unsafe?
    requires Moves(es, m) ==> Clear(es, m, same)
    ensures EntryMoved(es[m], files, same).ok && At(es, EntryMoved(es[m], files, same).files, m + 1, false, false)
  {
    if es[m].Padding? {
      PaddingAt(es, files, m, false);
    } else {
      CalmMove(es, files, m, same);
    }
  }

  /** A later attempt passes over what is dealt with. */
  lemma {:induction false} PassedOver(es: seq<Entry>, files: Files, m: nat, n: nat, same: bool)
    requires Proper(es) && At(es, files, m, false, false) && n <= m
    requires forall i | 0 <= i < n && Moves(es, i) :: !Shadowed(es, i)
    ensures TreeMoved(es, files, same, n) == Outcome(files, true)
  {
    if n > 0 {
      PassedOver(es, files, m, n - 1, same);
      if Moves(es, n - 1) {
        Behind(es, files, m, false, false, n - 1);
      }
      assert Reached(es, m - 1);
    }
  }

  // ---- Orderly lists keep everything ----

  /** No complete copy of the file is left under any of the torrent's names. */
  ghost predicate Lost(es: seq<Entry>, files: Files, i: int)
    requires Moves(es, i)
  {
    forall p {:trigger Owned(es, p)} | p in files && Owned(es, p) :: files[p].content != es[i].data
  }

  lemma {:induction false} AttemptOn(es: seq<Entry>, files: Files, m: nat, same: bool, n: nat) returns (k: nat)
    requires Proper(es) && Named(es) && Orderly(es, same) && At(es, files, m, false, false) && n <= |es|
    ensures var o := TreeMoved(es, files, same, n);
      m <= k && At(es, o.files, k, false, false) && (o.ok ==> n <= k) && (o.ok || !Reached(es, |es|))
  {
    if n <= m {
      PassedOrderly(es, files, m, n, same);
      k := m;
    } else {
      k := AttemptOn(es, files, m, same, n - 1);
      var o := TreeMoved(es, files, same, n - 1);
      TreeMovedNext(es, files, same, n - 1);
      if o.ok && !es[n - 1].Unsafe? {
        k := EntryOnward(es, o.files, k, same, n - 1);
      }
    }
  }

  lemma PassedOrderly(es: seq<Entry>, files: Files, m: nat, n: nat, same: bool)
    requires Proper(es) && Orderly(es, same) && At(es, files, m, false, false) && n <= m
    ensures TreeMoved(es, files, same, n) == Outcome(files, true)
  {
    forall i | 0 <= i < n && Moves(es, i) ensures !Shadowed(es, i) {
      assert Reached(es, m - 1) && Reached(es, i);
    }
    PassedOver(es, files, m, n, same);
  }

  lemma TreeMovedNext(es: seq<Entry>, files: Files, same: bool, n: nat)
    requires n < |es|
    ensures var o := TreeMoved(es, files, same, n);
      && TreeMoved(es, files, same, n + 1) == (if o.ok then EntryMoved(es[n], o.files, same) else o)
      && (es[n].Unsafe? ==> !Reached(es, |es|) && !TreeMoved(es, files, same, n + 1).ok
                            && TreeMoved(es, files, same, n + 1).files == o.files)
  {
  }

  lemma EntryOnward(es: seq<Entry>, files: Files, k: nat, same: bool, i: nat) returns (n: nat)
    requires Proper(es) && Named(es) && Orderly(es, same) && i < |es| && !es[i].Unsafe? && i <= k
    requires At(es, files, k, false, false)
    ensures var o := EntryMoved(es[i], files, same);
      o.ok && At(es, o.files, n, false, false) && k <= n && i < n
  {
    assert Reached(es, k - 1);
    n := if k == i then i + 1 else k;
    if k == i {
      assert Reached(es, i);
      NextCalm(es, files, i, same);
    } else if Moves(es, i) {
      assert Reached(es, i);
      Behind(es, files, k, false, false, i);
    }
  }

  lemma {:induction false} AttemptsOn(es: seq<Entry>, files: Files, same: bool, stops: seq<nat>) returns (k: nat)
    requires Proper(es) && Named(es) && Orderly(es, same) && At(es, files, 0, false, false)
    ensures At(es, Attempts(es, files, same, stops), k, false, false)
  {
    if stops == [] {
      k := 0;
    } else {
      k := AttemptsOn(es, files, same, stops[..|stops| - 1]);
      var s := stops[|stops| - 1];
      k := AttemptOn(es, Attempts(es, files, same, stops[..|stops| - 1]), k, same, if s < |es| then s else |es|);
    }
  }

  lemma NotLost(es: seq<Entry>, files: Files, m: nat, i: nat)
    requires At(es, files, m, false, false) && Moves(es, i)
    ensures !Lost(es, files, i)
  {
    var p := Place(es, i, m);
    assert Holds(files, p, es[i].data);
    assert CacheName(es[i].names, p) || DestName(es[i].names, p);
    assert Owned(es, p);
  }

  /** After any interrupted attempts, one that is left alone completes the move. */
  lemma OrderlyCompletes(es: seq<Entry>, files: Files, same: bool, stops: seq<nat>)
    requires Proper(es) && Named(es) && Orderly(es, same) && At(es, files, 0, false, false) && Reached(es, |es|)
    ensures var o := TreeMoved(es, Attempts(es, files, same, stops), same, |es|); o.ok && Complete(es, o.files)
  {
    var k := AttemptsOn(es, files, same, stops);
    var left := Attempts(es, files, same, stops);
    var n := AttemptOn(es, left, k, same, |es|);
    var after := TreeMoved(es, left, same, |es|).files;
    assert OnTheWay(es, after, |es|, false);
    AllThrough(es, after, false);
  }

  // ---- Others lose a file ----

  /** The same entries with other contents. */
  ghost predicate Alike(es: seq<Entry>, fs: seq<Entry>) {
    |es| == |fs| && forall i | 0 <= i < |es| ::
      match es[i]
      case Padding => fs[i].Padding?
      case Unsafe => fs[i].Unsafe?
      case Content(n, _, _) => fs[i].Content? && fs[i].names == n
  }

  lemma AlikeSame(es: seq<Entry>, fs: seq<Entry>, same: bool)
    requires Alike(es, fs)
    ensures Proper(es) ==> Proper(fs)
    ensures Named(es) ==> Named(fs)
    ensures forall i :: Moves(es, i) <==> Moves(fs, i)
    ensures forall i :: Reached(es, i) <==> Reached(fs, i)
  {
  }

  lemma AlikeOrderly(es: seq<Entry>, fs: seq<Entry>, same: bool)
    requires Alike(es, fs) && Orderly(es, same)
    ensures Orderly(fs, same)
  {
    forall i | 0 <= i < |fs| && Moves(fs, i) && Reached(fs, i) ensures Clear(fs, i, same) && !Shadowed(fs, i) {
      AlikeSame(es, fs, same);
      assert Moves(es, i) && Clear(es, i, same) && !Shadowed(es, i);
    }
  }

  /** No two files are of the same length. */
  ghost predicate Unequal(es: seq<Entry>) {
    forall i, j | Moves(es, i) && Moves(es, j) && i != j :: |es[i].data| != |es[j].data|
  }

  /** A step that takes another file's place, with one of another length, loses the file that was there. */
  lemma Overwritten(es: seq<Entry>, files: Files, after: Files, m: nat, i: nat, j: nat, scratch: Path, dst: Path)
    requires Unequal(es) && At(es, files, m, false, false) && Moves(es, i) && Moves(es, j) && i < m && i != j
    requires dst in after && after[dst].content == es[j].data && es[i].names.dst in {dst, scratch}
    requires scratch == dst || scratch !in after
    requires forall p | p in after && p != dst :: p in files && after[p] == files[p]
    ensures Lost(es, after, i)
  {
    forall p | p in after && Owned(es, p) ensures after[p].content != es[i].data {
      if p != dst {
        var k := Holder(es, files, m, false, false, p);
        assert Holds(files, Place(es, k, m), es[k].data);
      }
    }
  }

  lemma MovedOnly(files: Files, src: Path, dst: Path, same: bool)
    requires src in files && src != dst && dst != WithSuffix(dst, PARTIAL)
    ensures var after := Moved(files, src, dst, same);
      && dst in after && after[dst].content == files[src].content
      && (same || WithSuffix(dst, PARTIAL) !in after)
      && forall p | p in after && p != dst :: p in files && after[p] == files[p]
  {
  }

  /** The next file's move goes over one that has arrived. */
  lemma HindranceLoses(es: seq<Entry>, files: Files, m: nat, same: bool)
    requires Proper(es) && Named(es) && Unequal(es) && At(es, files, m, false, false) && Moves(es, m) && !Clear(es, m, same)
    ensures exists i :: Moves(es, i) && Lost(es, EntryMoved(es[m], files, same).files, i)
  {
    var n := es[m].names;
    var i :| 0 <= i < m && Moves(es, i) && es[i].names.dst in Writes(n, same);
    assert n.Distinct();
    DistinctNames(n);
    NotTheSame(es, files, m, same);
    MovedOnly(files, n.src, n.dst, same);
    var after := Moved(files, n.src, n.dst, same);
    Overwritten(es, files, after, m, i, m, if same then n.dst else n.Scratch(), n.dst);
    assert Lost(es, after, i);
  }

  /** What is at the next file's destination is another file. */
  lemma NotTheSame(es: seq<Entry>, files: Files, m: nat, same: bool)
    requires Proper(es) && Named(es) && Unequal(es) && At(es, files, m, false, false) && Moves(es, m)
    ensures es[m].names.src in files && files[es[m].names.src].content == es[m].data
    ensures EntryMoved(es[m], files, same).files == Moved(files, es[m].names.src, es[m].names.dst, same)
  {
    var p := es[m].names.dst;
    assert es[m].names.Distinct();
    DistinctNames(es[m].names);
    assert Place(es, m, m) == es[m].names.src && Holds(files, es[m].names.src, es[m].data);
    if p in files {
      assert DestName(es[m].names, p);
      assert Owned(es, p);
      var k := Holder(es, files, m, false, false, p);
      assert Holds(files, Place(es, k, m), es[k].data);
      assert k != m;
    }
  }

  /** A later attempt takes the file of that name for the unfinished download of one that has arrived. */
  lemma ShadowLoses(es: seq<Entry>, files: Files, i: nat, same: bool)
    requires Proper(es) && Named(es) && Unequal(es) && At(es, files, i + 1, false, false) && Moves(es, i) && Shadowed(es, i)
    ensures Lost(es, EntryMoved(es[i], files, same).files, i)
  {
    var n := es[i].names;
    var j :| i < j < |es| && Moves(es, j) && es[j].names.src == n.Unfinished();
    assert n.Distinct();
    DistinctNames(n);
    TakenForPart(es, files, i, j, same);
    MovedOnly(files, n.Unfinished(), n.dst, same);
    var after := Moved(files, n.Unfinished(), n.dst, same);
    Overwritten(es, files, after, i + 1, i, j, n.dst, n.dst);
  }

  lemma TakenForPart(es: seq<Entry>, files: Files, i: nat, j: nat, same: bool)
    requires Proper(es) && Unequal(es) && At(es, files, i + 1, false, false) && Moves(es, i) && i < j && Moves(es, j)
    requires es[j].names.src == es[i].names.Unfinished()
    ensures es[j].names.src in files && files[es[j].names.src].content == es[j].data
    ensures EntryMoved(es[i], files, same).files == Moved(files, es[j].names.src, es[i].names.dst, same)
  {
    SourceGone(es, files, i);
    assert Place(es, j, i + 1) == es[j].names.src && Holds(files, es[j].names.src, es[j].data);
    assert Place(es, i, i + 1) == es[i].names.dst && Holds(files, es[i].names.dst, es[i].data);
  }

  lemma SourceGone(es: seq<Entry>, files: Files, i: nat)
    requires Proper(es) && At(es, files, i + 1, false, false) && Moves(es, i)
    ensures es[i].names.src !in files
  {
    var p := es[i].names.src;
    if p in files {
      assert CacheName(es[i].names, p);
      assert Owned(es, p);
      var k := Holder(es, files, i + 1, false, false, p);
      NotItsSource(es, i + 1, i, k);
    }
  }

  lemma NotItsSource(es: seq<Entry>, m: nat, i: nat, k: nat)
    requires Proper(es) && Moves(es, i) && Moves(es, k) && i < m
    ensures Place(es, k, m) != es[i].names.src
  {
    assert CacheName(es[i].names, es[i].names.src);
    assert !DestName(es[k].names, es[i].names.src);
  }

  // ---- Exactly the orderly lists keep everything ----

  /** Whatever the attempts, each stopped anywhere, no file that was in the cache is lost. */
  ghost predicate Keeps(es: seq<Entry>, same: bool) {
    forall files, stops, i | At(es, files, 0, false, false) && Moves(es, i) ::
      !Lost(es, Attempts(es, files, same, stops), i)
  }

  /** A file on which the list fails first. */
  lemma {:induction false} FirstFault(es: seq<Entry>, same: bool, n: nat) returns (i: nat)
    requires n <= |es| && exists k :: 0 <= k < n && Moves(es, k) && Reached(es, k) && !(Clear(es, k, same) && !Shadowed(es, k))
    ensures i < n && Moves(es, i) && Reached(es, i) && !(Clear(es, i, same) && !Shadowed(es, i))
    ensures forall k | 0 <= k < i && Moves(es, k) :: Clear(es, k, same) && !Shadowed(es, k)
  {
    if k :| 0 <= k < n - 1 && Moves(es, k) && Reached(es, k) && !(Clear(es, k, same) && !Shadowed(es, k)) {
      i := FirstFault(es, same, n - 1);
    } else {
      i := n - 1;
    }
  }

  /** An attempt stopped just after entry `v`. */
  lemma OneAttempt(es: seq<Entry>, files: Files, same: bool, v: nat)
    requires v < |es|
    ensures var o := TreeMoved(es, files, same, v);
      Attempts(es, files, same, [v + 1]) == (if o.ok then EntryMoved(es[v], o.files, same) else o).files
      == TreeMoved(es, files, same, v + 1).files
  {
    assert [v + 1][..0] == [];
    assert Attempts(es, files, same, []) == files;
  }

  /** Two of them, the second of which passes over what is before that entry. */
  lemma TwoAttempts(es: seq<Entry>, files: Files, same: bool, v: nat, there: Files)
    requires v < |es| && there == TreeMoved(es, files, same, v + 1).files
    requires TreeMoved(es, there, same, v) == Outcome(there, true)
    ensures Attempts(es, files, same, [v + 1, v + 1]) == EntryMoved(es[v], there, same).files
  {
    assert [v + 1, v + 1][..1] == [v + 1];
    OneAttempt(es, files, same, v);
  }

  lemma UnorderlyLoses(es: seq<Entry>, files: Files, same: bool)
    requires Proper(es) && Named(es) && Unequal(es) && At(es, files, 0, false, false) && !Orderly(es, same)
    ensures exists stops, i :: Moves(es, i) && Lost(es, Attempts(es, files, same, stops), i)
  {
    var v := FirstFault(es, same, |es|);
    ReachedUnhindered(es, v, same);
    if Clear(es, v, same) {
      ShadowedRun(es, files, v, same);
    } else {
      HinderedRun(es, files, v, same);
    }
  }

  lemma ReachedUnhindered(es: seq<Entry>, v: nat, same: bool)
    requires Moves(es, v) && Reached(es, v) && forall k | 0 <= k < v && Moves(es, k) :: Clear(es, k, same)
    ensures Unhindered(es, v, same)
  {
  }

  lemma HinderedRun(es: seq<Entry>, files: Files, v: nat, same: bool)
    requires Proper(es) && Named(es) && Unequal(es) && At(es, files, 0, false, false)
    requires Moves(es, v) && Unhindered(es, v, same) && !Clear(es, v, same)
    ensures exists stops, i :: Moves(es, i) && Lost(es, Attempts(es, files, same, stops), i)
  {
    FirstAttempt(es, files, v, same);
    var there := TreeMoved(es, files, same, v).files;
    HindranceLoses(es, there, v, same);
    OneAttempt(es, files, same, v);
    var i :| Moves(es, i) && Lost(es, EntryMoved(es[v], there, same).files, i);
    assert Lost(es, Attempts(es, files, same, [v + 1]), i);
  }

  lemma UnhinderedOne(es: seq<Entry>, v: nat, same: bool)
    requires Moves(es, v) && Unhindered(es, v, same) && Clear(es, v, same)
    ensures Unhindered(es, v + 1, same)
  {
  }

  lemma ShadowedRun(es: seq<Entry>, files: Files, v: nat, same: bool)
    requires Proper(es) && Named(es) && Unequal(es) && At(es, files, 0, false, false)
    requires Moves(es, v) && Unhindered(es, v, same) && Clear(es, v, same) && Shadowed(es, v)
    requires forall k | 0 <= k < v && Moves(es, k) :: !Shadowed(es, k)
    ensures exists stops, i :: Moves(es, i) && Lost(es, Attempts(es, files, same, stops), i)
  {
    UnhinderedOne(es, v, same);
    FirstAttempt(es, files, v + 1, same);
    var after := TreeMoved(es, files, same, v + 1).files;
    PassedOver(es, after, v + 1, v, same);
    ShadowLoses(es, after, v, same);
    TwoAttempts(es, files, same, v, after);
    assert Lost(es, Attempts(es, files, same, [v + 1, v + 1]), v);
  }

  /** The entries with contents of lengths of their own. */
  ghost function Filled(es: seq<Entry>): (fs: seq<Entry>)
    ensures |fs| == |es|
  {
    if es == [] then [] else Filled(es[..|es| - 1]) + [WithLength(es[|es| - 1], |es|)]
  }

  ghost function WithLength(e: Entry, n: nat): Entry {
    match e
    case Content(names, _, was) => Content(names, Fill(n), was)
    case _ => e
  }

  ghost function Fill(n: nat): (s: Bytes)
    ensures |s| == n
  {
    if n == 0 then "" else Fill(n - 1) + "x"
  }

  lemma {:induction false} FilledAt(es: seq<Entry>, i: nat)
    requires i < |es|
    ensures Filled(es)[i] == WithLength(es[i], i + 1)
  {
    if i < |es| - 1 {
      FilledAt(es[..|es| - 1], i);
    }
  }

  lemma FilledAlike(es: seq<Entry>)
    ensures Alike(es, Filled(es)) && Unequal(Filled(es))
  {
    forall i | 0 <= i < |es| ensures Filled(es)[i] == WithLength(es[i], i + 1) {
      FilledAt(es, i);
    }
  }

  /** The first files in the cache, each under its final name. */
  ghost function Cached(es: seq<Entry>): Files {
    if es == [] then map[]
    else
      var e := es[|es| - 1];
      if e.Content? then Cached(es[..|es| - 1])[e.names.src := File(e.data, true)] else Cached(es[..|es| - 1])
  }

  lemma {:induction false} CachedHolds(es: seq<Entry>)
    requires Proper(es)
    ensures forall i | Moves(es, i) :: Holds(Cached(es), es[i].names.src, es[i].data)
    ensures forall p | p in Cached(es) :: Placed(es, p, 0)
  {
    if es != [] {
      var init := es[..|es| - 1];
      assert forall i | Moves(init, i) :: Moves(es, i) && es[i] == init[i];
      assert Proper(init);
      CachedHolds(init);
      forall p | p in Cached(es) ensures Placed(es, p, 0) {
        if p in Cached(init) {
          var i :| Moves(init, i) && p == Place(init, i, 0);
          assert p == Place(es, i, 0);
        } else {
          assert p == Place(es, |es| - 1, 0);
        }
      }
    }
  }

  lemma CachedStarts(es: seq<Entry>)
    requires Proper(es)
    ensures At(es, Cached(es), 0, false, false)
  {
    CachedHolds(es);
    forall i | Moves(es, i) ensures Place(es, i, 0) == es[i].names.src {
    }
  }

  /**
    * Interrupted moves keep every file, whatever the files contain, exactly when the list is orderly: no file's
    * move writes where one before it arrives, and none is called in the cache what one before it is called unfinished.
    */
  lemma OrderlyExactly(es: seq<Entry>, same: bool)
    requires Proper(es) && Named(es)
    ensures Orderly(es, same) <==> forall fs | Alike(es, fs) :: Keeps(fs, same)
  {
    if Orderly(es, same) {
      forall fs | Alike(es, fs) ensures Keeps(fs, same) {
        AlikeSame(es, fs, same);
        AlikeOrderly(es, fs, same);
        forall files, stops, i | At(fs, files, 0, false, false) && Moves(fs, i)
          ensures !Lost(fs, Attempts(fs, files, same, stops), i)
        {
          var m := AttemptsOn(fs, files, same, stops);
          NotLost(fs, Attempts(fs, files, same, stops), m, i);
        }
      }
    } else {
      var fs := Filled(es);
      FilledAlike(es);
      AlikeSame(es, fs, same);
      if Orderly(fs, same) {
        AlikeBack(es, fs, same);
      }
      CachedStarts(fs);
      UnorderlyLoses(fs, Cached(fs), same);
      assert !Keeps(fs, same);
    }
  }

  lemma AlikeBack(es: seq<Entry>, fs: seq<Entry>, same: bool)
    requires Alike(es, fs) && Orderly(fs, same)
    ensures Orderly(es, same)
  {
    assert Alike(fs, es);
    AlikeOrderly(fs, es, same);
  }
}
