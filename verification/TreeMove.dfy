/** The moves of a whole torrent: attempt by attempt, and process by process. */
module TreeMove {
  import opened Options
  import opened Paths
  import opened Disk
  import opened FileMove
  import opened MoveNames
  import opened TreeSteps

  /** A torrent's files, between the cache and their destination. */
  datatype Tree = Tree(dataDir: Path, destDir: Path, name: string, rels: seq<string>) {
    function Dest(i: nat): Option<Path>
      requires i < |rels|
    {
      WholeTorrentDest(destDir, name, rels[i])
    }

    /** What entry `i` is to the move, whatever it contains. */
    ghost predicate Describes(e: Entry, i: nat)
      requires i < |rels|
    {
      match e
      case Padding => IsPadPath(name, rels[i])
      case Unsafe => !IsPadPath(name, rels[i]) && Dest(i).None?
      case Content(n, _, _) =>
        !IsPadPath(name, rels[i]) && Dest(i).Some? && n == Names(Join(dataDir, rels[i]), Dest(i).value)
    }

    ghost predicate Lists(es: seq<Entry>) {
      |es| == |rels| && forall i {:trigger Describes(es[i], i)} | 0 <= i < |es| :: Describes(es[i], i)
    }

    /** Every file is in a directory, complete, under the path the torrent gives it. */
    ghost predicate CompleteIn(es: seq<Entry>, files: Files, dir: Path)
      requires Lists(es)
    {
      forall i | Moves(es, i) ::
        var dst := WholeTorrentDest(dir, name, rels[i]);
        dst.Some? && Holds(files, dst.value, es[i].data)
    }
  }

  /** One entry: padding is skipped, a path that leads outside is an error, anything else is moved. */
  method MoveTreeEntry(disk: Device, t: Tree, i: nat, same: bool, ghost es: seq<Entry>) returns (moved: bool, r: Result)
    requires t.Lists(es) && Named(es) && i < |t.rels|
    modifies disk
    ensures old(disk.dirs) <= disk.dirs
    ensures Advances(es, old(disk.files), disk.files, i, if r.Done? then i + 1 else i, same, disk.errors)
    ensures Separate(es) && old(AllSafe(es, disk.files)) && disk.Calm() && !es[i].Unsafe? ==> r.Done?
    ensures r.Done? ==> !es[i].Unsafe? && moved == !es[i].Padding?
    ensures disk.Calm() ==> Outcome(disk.files, r.Done?) == EntryMoved(es[i], old(disk.files), same)
  {
    assert t.Describes(es[i], i) && (Moves(es, i) ==> es[i].names.Distinct());
    ghost var files := disk.files;
    ghost var onTheWay := !disk.errors && Proper(es) && Orderly(es, same) && OnTheWay(es, files, i, !same);
    if IsPadPath(t.name, t.rels[i]) {
      if onTheWay {
        PaddingOn(es, files, i, !same);
      }
      return false, Done;
    }
    if t.Dest(i).None? {
      return false, Error;
    }
    var n := Names(Join(t.dataDir, t.rels[i]), t.Dest(i).value);
    r := Relocate(disk, n, n.dst[..if n.dst == [] then 0 else |n.dst| - 1], same, es[i].data, es[i].was);
    moved := r.Done?;
    if Separate(es) && AllSafe(es, files) {
      OthersSafe(es, files, disk.files, i);
    }
    if onTheWay {
      EntryOn(es, files, disk.files, i, same, r.Done?);
    }
  }

  /** Every entry, in order; `fileDone` counts the signals sent as files arrive. Cancelling stops before entry `stop`. */
  method MoveCompletedTree(disk: Device, t: Tree, same: bool, stop: nat, ghost es: seq<Entry>)
    returns (r: Result, fileDone: nat)
    requires t.Lists(es) && Named(es)
    modifies disk
    ensures old(disk.dirs) <= disk.dirs
    ensures Advances(es, old(disk.files), disk.files, 0, if r.Done? then |es| else 0, same, disk.errors)
    ensures Separate(es) && old(AllSafe(es, disk.files)) && disk.Calm() && stop >= |es| && Reached(es, |es|) ==> r.Done?
    ensures old(Resumable(es, disk.files, same, disk.errors)) ==>
      Resumable(es, disk.files, same, disk.errors) && (r.Done? ==> Complete(es, disk.files))
    ensures r.Done? ==> Reached(es, |es|) && fileDone == Counted(es, |es|)
    ensures disk.Calm() ==>
      var o := TreeMoved(es, old(disk.files), same, if stop < |es| then stop else |es|);
      disk.files == o.files && r.Done? == (o.ok && stop >= |es|)
  {
    fileDone := 0;
    ghost var start := disk.files;
    for i := 0 to |t.rels|
      invariant old(disk.dirs) <= disk.dirs && i <= stop
      invariant Progress(es, start, disk.files, i, fileDone, same, disk.errors, disk.Calm())
    {
      if i == stop {
        Stopped(es, start, disk.files, i, fileDone, same, disk.errors, disk.Calm());
        return Error, fileDone;
      }
      r, fileDone := NextEntry(disk, t, i, same, fileDone, es, start);
      if !r.Done? {
        Failed(es, start, disk.files, i, stop, same, disk.errors, disk.Calm());
        return;
      }
    }
    r := Done;
    Stopped(es, start, disk.files, |es|, fileDone, same, disk.errors, disk.Calm());
  }

  /** Where the move stands with `i` entries dealt with. */
  ghost predicate Progress(es: seq<Entry>, start: Files, files: Files, i: nat, count: nat, same: bool, errors: bool, calm: bool) {
    && i <= |es| && Advances(es, start, files, 0, i, same, errors)
    && Reached(es, i - 1) && count == Counted(es, i)
    && (calm ==> TreeMoved(es, start, same, i) == Outcome(files, true))
  }

  /** Where it stands when entry `i` cannot be moved. */
  ghost predicate Halted(es: seq<Entry>, start: Files, files: Files, i: nat, same: bool, errors: bool, calm: bool) {
    && i < |es| && Advances(es, start, files, 0, i, same, errors)
    && (calm ==> TreeMoved(es, start, same, i + 1) == Outcome(files, false))
  }

  method NextEntry(disk: Device, t: Tree, i: nat, same: bool, count: nat, ghost es: seq<Entry>, ghost start: Files)
    returns (r: Result, newCount: nat)
    requires t.Lists(es) && Named(es) && i < |t.rels|
    requires Progress(es, start, disk.files, i, count, same, disk.errors, disk.Calm())
    modifies disk
    ensures old(disk.dirs) <= disk.dirs
    ensures r.Done? ==> Progress(es, start, disk.files, i + 1, newCount, same, disk.errors, disk.Calm())
    ensures !r.Done? ==> Halted(es, start, disk.files, i, same, disk.errors, disk.Calm())
    ensures Separate(es) && AllSafe(es, start) && disk.Calm() && !es[i].Unsafe? ==> r.Done?
  {
    ghost var files := disk.files;
    var moved: bool;
    moved, r := MoveTreeEntry(disk, t, i, same, es);
    newCount := if r.Done? && moved then count + 1 else count;
    if r.Done? {
      EntryProgress(es, start, files, disk.files, i, count, same, disk.errors, disk.Calm());
    } else {
      AdvancesOn(es, start, files, disk.files, 0, i, i, same, disk.errors);
    }
  }

  lemma EntryProgress(es: seq<Entry>, start: Files, before: Files, after: Files, i: nat, count: nat, same: bool,
                      errors: bool, calm: bool)
    requires i < |es| && !es[i].Unsafe? && Progress(es, start, before, i, count, same, errors, calm)
    requires Advances(es, before, after, i, i + 1, same, errors)
    requires calm ==> Outcome(after, true) == EntryMoved(es[i], before, same)
    ensures Progress(es, start, after, i + 1, if es[i].Padding? then count else count + 1, same, errors, calm)
  {
    AdvancesOn(es, start, before, after, 0, i, i + 1, same, errors);
    EntryCounted(es, i);
  }

  lemma Stopped(es: seq<Entry>, start: Files, files: Files, i: nat, count: nat, same: bool, errors: bool, calm: bool)
    requires Progress(es, start, files, i, count, same, errors, calm)
    ensures Resumable(es, start, same, errors) ==> Resumable(es, files, same, errors) && (i == |es| ==> Complete(es, files))
    ensures Advances(es, start, files, 0, 0, same, errors)
  {
    FromTheStart(es, start, files, i, same, errors);
  }

  lemma FromTheStart(es: seq<Entry>, start: Files, files: Files, i: nat, same: bool, errors: bool)
    requires Advances(es, start, files, 0, i, same, errors)
    ensures Resumable(es, start, same, errors) ==> Resumable(es, files, same, errors) && (i == |es| ==> Complete(es, files))
    ensures Advances(es, start, files, 0, 0, same, errors)
  {
    assert OnTheWay(es, files, i, !same) ==> OnTheWay(es, files, 0, !same);
    if Resumable(es, start, same, errors) {
      AdvancesKeeps(es, start, files, i, same, errors);
    }
  }

  lemma Failed(es: seq<Entry>, start: Files, files: Files, i: nat, stop: nat, same: bool, errors: bool, calm: bool)
    requires Halted(es, start, files, i, same, errors, calm) && i < stop
    ensures Resumable(es, start, same, errors) ==> Resumable(es, files, same, errors)
    ensures Advances(es, start, files, 0, 0, same, errors)
    ensures calm ==> TreeMoved(es, start, same, if stop < |es| then stop else |es|) == Outcome(files, false)
  {
    FromTheStart(es, start, files, i, same, errors);
    if calm {
      TreeStuck(es, start, same, i + 1, if stop < |es| then stop else |es|);
    }
  }

  /** Any number of attempts: a file is skipped that an earlier one has moved, and the one that succeeds completes the move. */
  method RetryTree(disk: Device, t: Tree, same: bool, tries: nat, ghost es: seq<Entry>)
    returns (r: Result, fileDone: nat, ghost attempts: nat)
    requires t.Lists(es) && Named(es)
    modifies disk
    ensures old(disk.dirs) <= disk.dirs
    ensures old(Resumable(es, disk.files, same, disk.errors)) ==>
      Resumable(es, disk.files, same, disk.errors) && (r.Done? ==> Complete(es, disk.files))
    ensures r.Done? ==> Reached(es, |es|) && fileDone == Counted(es, |es|)
    ensures Separate(es) && old(AllSafe(es, disk.files)) && disk.Calm() && tries > 0 && Reached(es, |es|) ==> r.Done?
    ensures attempts <= tries
  {
    r, fileDone, attempts := Error, 0, 0;
    ghost var start := disk.files;
    for try := 0 to tries
      invariant !r.Done? && old(disk.dirs) <= disk.dirs && attempts == try
      invariant Resumable(es, start, same, disk.errors) ==> Resumable(es, disk.files, same, disk.errors)
      invariant try == 0 ==> disk.files == start
      invariant Separate(es) && AllSafe(es, start) && disk.Calm() && Reached(es, |es|) ==> try == 0
    {
      var stop: nat := *;
      if !disk.stops {
        stop := |t.rels|;
      }
      attempts := attempts + 1;
      r, fileDone := MoveCompletedTree(disk, t, same, stop, es);
      var stopped: bool := *;
      if !r.Error? || stopped {
        return;
      }
    }
  }

  // ---- Finalizing where the files already are ----

  predicate Occupied(files: Files, made: set<Path>, dir: Path) {
    (exists p <- files.Keys :: Below(dir, p)) || (exists p <- made :: Below(dir, p))
  }

  /** The first of the directories that is not empty: what is in it is not looked at. */
  function FoundIn(files: Files, made: set<Path>, dirs: seq<Path>): Option<Path> {
    if dirs == [] then None
    else if Occupied(files, made, dirs[0]) then Some(dirs[0])
    else FoundIn(files, made, dirs[1..])
  }

  /** It is the first that has anything below it. */
  lemma {:induction false} FoundInIs(files: Files, made: set<Path>, dirs: seq<Path>)
    ensures var found := FoundIn(files, made, dirs);
      if found.None? then forall d <- dirs :: !Occupied(files, made, d)
      else exists k :: 0 <= k < |dirs| && found.value == dirs[k] && Occupied(files, made, dirs[k])
                       && forall j | 0 <= j < k :: !Occupied(files, made, dirs[j])
  {
    if dirs != [] {
      assert dirs == [dirs[0]] + dirs[1..];
      FoundInIs(files, made, dirs[1..]);
      if FoundIn(files, made, dirs).Some? && !Occupied(files, made, dirs[0]) {
        var k :| 0 <= k < |dirs[1..]| && FoundIn(files, made, dirs[1..]).value == dirs[1..][k]
                 && forall j | 0 <= j < k :: !Occupied(files, made, dirs[1..][j]);
        assert dirs[k + 1] == dirs[1..][k];
        forall j | 0 <= j < k + 1 ensures !Occupied(files, made, dirs[j]) {
          assert j > 0 ==> dirs[j] == dirs[1..][j - 1];
        }
      }
    }
  }

  lemma OccupiedIs(files: Files, made: set<Path>, dir: Path)
    ensures Occupied(files, made, dir) <==> exists p :: (p in files || p in made) && dir <= p && dir != p
  {
    if p :| (p in files || p in made) && dir <= p && dir != p {
      assert Below(dir, p);
    }
  }

  /** So something is found exactly when one of the directories has something below it. */
  lemma SomethingFound(files: Files, made: set<Path>, dirs: seq<Path>)
    ensures FoundIn(files, made, dirs).Some? <==> exists d, p :: d in dirs && (p in files || p in made) && d <= p && d != p
  {
    FoundInIs(files, made, dirs);
    if FoundIn(files, made, dirs).Some? {
      var k :| 0 <= k < |dirs| && Occupied(files, made, dirs[k]);
      OccupiedIs(files, made, dirs[k]);
      var p :| (p in files || p in made) && dirs[k] <= p && dirs[k] != p;
      assert dirs[k] in dirs;
    }
    if d, p :| d in dirs && (p in files || p in made) && d <= p && d != p {
      OccupiedIs(files, made, d);
    }
  }

  /** The place a success reports holds every file: so they were there before, or no directory was occupied. */
  ghost predicate ReliableTree(t: Tree, es: seq<Entry>, files: Files, made: set<Path>, dirs: seq<Path>)
    requires t.Lists(es)
  {
    var found := FoundIn(files, made, dirs);
    found.None? || t.CompleteIn(es, files, found.value)
  }

  /**
    * One process: it is done at once where a directory is found occupied, and moves the torrent in a few attempts
    * otherwise. A success leaves every file where it says exactly when what was found there was the whole torrent.
    */
  method AttemptTreeMove(disk: Device, dirs: seq<Path>, t: Tree, same: bool, ghost es: seq<Entry>)
    returns (r: Result, fileDone: nat, at: Path, ghost attempts: nat)
    requires t.Lists(es) && Named(es)
    modifies disk
    ensures old(disk.dirs) <= disk.dirs
    ensures old(Resumable(es, disk.files, same, disk.errors)) ==> Resumable(es, disk.files, same, disk.errors)
    ensures var found := FoundIn(old(disk.files), old(disk.dirs), dirs);
      if found.Some? then r.Done? && at == found.value && disk.files == old(disk.files)
      else at == t.destDir && (r.Done? ==> fileDone == Counted(es, |es|))
    ensures r.Done? && old(Resumable(es, disk.files, same, disk.errors)) ==>
      (t.CompleteIn(es, disk.files, at) <==> ReliableTree(t, es, old(disk.files), old(disk.dirs), dirs))
    ensures Separate(es) && old(AllSafe(es, disk.files)) && disk.Calm() && Reached(es, |es|) ==> r.Done?
    ensures attempts <= 3
    ensures (exists d, p :: d in dirs && (p in old(disk.files) || p in old(disk.dirs)) && d <= p && d != p) ==>
      r.Done? && disk.files == old(disk.files) && attempts == 0
  {
    SomethingFound(disk.files, disk.dirs, dirs);
    var found := FoundIn(disk.files, disk.dirs, dirs);
    if found.Some? {
      return Done, 0, found.value, 0;
    }
    at := t.destDir;
    r, fileDone, attempts := RetryTree(disk, t, same, MAX_ATTEMPTS, es);
    CompleteThere(t, es, disk.files);
  }

  lemma CompleteThere(t: Tree, es: seq<Entry>, files: Files)
    requires t.Lists(es)
    ensures Complete(es, files) <==> t.CompleteIn(es, files, t.destDir)
  {
    forall i | Moves(es, i) ensures t.Dest(i) == Some(es[i].names.dst) {
      assert t.Describes(es[i], i);
    }
  }

  /**
    * However often the move is interrupted, at any file or step, no file is lost. The process that succeeds has put
    * every file in place exactly when no directory was occupied as it began, or the one found held them all.
    */
  method RecoverTree(disk: Device, dirs: seq<Path>, t: Tree, same: bool, lives: nat, ghost es: seq<Entry>)
    returns (moved: bool, fileDone: nat, at: Path, ghost was: Files, ghost made: set<Path>)
    requires t.Lists(es) && Named(es) && Resumable(es, disk.files, same, disk.errors)
    modifies disk
    ensures Resumable(es, disk.files, same, disk.errors)
    ensures moved ==> Resumable(es, was, same, disk.errors) && old(disk.dirs) <= made
    ensures moved ==> (t.CompleteIn(es, disk.files, at) <==> ReliableTree(t, es, was, made, dirs))
    ensures moved && FoundIn(was, made, dirs).None? ==> fileDone == Counted(es, |es|)
    ensures FoundIn(old(disk.files), old(disk.dirs), dirs).Some? && lives > 0 ==> moved && disk.files == old(disk.files)
    ensures Separate(es) && old(AllSafe(es, disk.files)) && disk.Calm() && Reached(es, |es|) && lives > 0 ==> moved
  {
    moved, fileDone, at := false, 0, t.destDir;
    was, made := disk.files, disk.dirs;
    for life := 0 to lives
      invariant !moved && Resumable(es, disk.files, same, disk.errors) && old(disk.dirs) <= disk.dirs
      invariant life == 0 ==> disk.files == old(disk.files) && disk.dirs == old(disk.dirs)
      invariant FoundIn(old(disk.files), old(disk.dirs), dirs).Some? ==> life == 0
      invariant Separate(es) && old(AllSafe(es, disk.files)) && disk.Calm() && Reached(es, |es|) ==> life == 0
    {
      was, made := disk.files, disk.dirs;
      var r: Result;
      ghost var attempts: nat;
      r, fileDone, at, attempts := AttemptTreeMove(disk, dirs, t, same, es);
      if r.Done? {
        moved := true;
        return;
      }
    }
  }
}
