/** A success that is reported where the files are only expected to be. */
module Finalizing {
  import opened Options
  import opened Paths
  import opened Disk
  import opened FileMove
  import opened MoveNames
  import opened TreeSteps
  import opened TreeOrder
  import opened TreeMove
  import opened TreeNames

  lemma TwoDirs(a: Path, b: Path, x: string)
    requires a != b
    ensures Names(a + [x], b + [x]).Distinct()
  {
    var n := Names(a + [x], b + [x]);
    var k := |a|;
    assert n.src[..k] == a && n.Unfinished()[..k] == a;
    assert |a| == |b| ==> n.dst[..k] == b && n.Scratch()[..k] == b && n.Arriving()[..k] == b;
    OwnNamesDiffer(n);
  }

  /**
    * Places in directories unrelated to the cache, under a name that is not that of anything unfinished, are the
    * destination itself or none of the names of the move.
    */
  lemma PlacesApart(dirs: seq<Path>, name: string, dataDir: Path, destDir: Path, rel: string)
    requires Below(dataDir, SingleNames(dataDir, destDir, rel).src) && SingleNames(dataDir, destDir, rel).dst != []
    requires forall d <- dirs :: Unrelated(d, dataDir) && d <= BulkPath(d, name, rel) && Plain(BulkPath(d, name, rel))
    ensures forall d <- dirs :: var p, n := BulkPath(d, name, rel), SingleNames(dataDir, destDir, rel);
              p == n.dst || p !in n.All()
  {
    var n := SingleNames(dataDir, destDir, rel);
    forall d | d in dirs ensures BulkPath(d, name, rel) == n.dst || BulkPath(d, name, rel) !in n.All() {
      PlaceApart(d, dataDir, BulkPath(d, name, rel), n);
    }
  }

  lemma PlaceApart(d: Path, dataDir: Path, p: Path, n: Names)
    requires Unrelated(d, dataDir) && d <= p && Plain(p) && Below(dataDir, n.src) && n.dst != []
    ensures p == n.dst || p !in n.All()
  {
    OutsideApart(d, dataDir, p, n.src);
    SuffixShows(n.dst, p, PART);
    SuffixShows(n.dst, p, PARTIAL);
  }

  /** The file is complete in the cache, an older one is at its destination cut short: that one is taken for it. */
  lemma StaleTaken(dataDir: Path, destDir: Path, name: string, rel: string, data: Bytes, stale: Bytes)
    requires IsName(rel) && dataDir != destDir && |stale| < |data|
    ensures var n := SingleNames(dataDir, destDir, rel);
      var files := map[n.src := File(data, true), n.dst := File(stale, true)];
      && n.Distinct() && SizeTells(data, Some(stale)) && Safe(files, n, data, Some(stale))
      && BulkPath(destDir, name, rel) == n.dst && !Reliable(files, [destDir], name, rel, data)
  {
    JoinName(dataDir, rel);
    JoinName(destDir, rel);
    BaseName(rel);
    NoPrefix(rel, name + "/");
    TwoDirs(dataDir, destDir, rel);
    DistinctNames(Names(dataDir + [rel], destDir + [rel]));
    assert data != stale;
  }

  /**
    * A first attempt stopped with one file moved and another still to go: the next process finds the destination
    * occupied and is done, though the torrent is not complete there.
    */
  lemma DoneTooEarly(t: Tree, es: seq<Entry>, files: Files, made: set<Path>, n: nat, same: bool, i: nat, j: nat)
    requires t.Lists(es) && Housed(t, es) && Proper(es) && Named(es) && Orderly(es, same)
    requires At(es, files, 0, false, false) && Reached(es, j) && Moves(es, i) && Moves(es, j) && i < n <= j
    ensures var left := Attempts(es, files, same, [n]);
      && FoundIn(left, made, [t.destDir]).Some? && !ReliableTree(t, es, left, made, [t.destDir])
      && (forall k | Moves(es, k) :: !Lost(es, left, k))
  {
    var left := Attempts(es, files, same, [n]);
    OrderlyUnhindered(es, n, same);
    FirstAttempt(es, files, n, same);
    OneAttempt(es, files, same, n - 1);
    assert At(es, left, n, false, false);
    assert Place(es, i, n) == es[i].names.dst && es[i].names.dst in left.Keys;
    assert Occupied(left, made, t.destDir);
    NotArrived(es, left, n, j, same);
    CompleteThere(t, es, left);
    forall k | Moves(es, k) ensures !Lost(es, left, k) {
      NotLost(es, left, n, k);
    }
  }

  lemma OrderlyUnhindered(es: seq<Entry>, n: nat, same: bool)
    requires Orderly(es, same) && n <= |es| && Reached(es, n - 1)
    ensures Unhindered(es, n, same)
  {
    forall i | 0 <= i < n && Moves(es, i) ensures Clear(es, i, same) {
      assert Reached(es, i);
    }
  }

  lemma NotArrived(es: seq<Entry>, files: Files, n: nat, j: nat, same: bool)
    requires Proper(es) && At(es, files, n, false, false) && Moves(es, j) && n <= j && Clear(es, j, same)
    ensures es[j].names.dst !in files
  {
    var p := es[j].names.dst;
    assert DestName(es[j].names, p);
    if p in files {
      assert Owned(es, p);
      var k := Holder(es, files, n, false, false, p);
    }
  }
}
