/** Moving a completed file from the cache to its destination, through failures and crashes. */
module FileMove {
  import opened Options
  import opened Paths
  import opened Disk

  const PARTIAL := ".partial"
  const PART := ".part"
  const CHUNK := 32768

  /** The path with a suffix on its name. */
  function WithSuffix(p: Path, suffix: string): Path {
    if p == [] then [suffix] else p[..|p| - 1] + [p[|p| - 1] + suffix]
  }

  /** Files other than those of the move keep what is synced in them. */
  ghost predicate Spared(before: Files, after: Files, names: set<Path>) {
    forall p | p !in names ::
      && (p in before <==> p in after)
      && (p in before && before[p].synced ==> after[p] == before[p])
  }

  ghost predicate Holds(files: Files, p: Path, data: Bytes) {
    p in files && files[p] == File(data, true)
  }

  /**
    * Where a move of `data` from `src` to `dst` can stand: nothing has happened, or the destination holds all the
    * data, with the source still there or gone.
    */
  ghost predicate MidMove(before: Files, after: Files, src: Path, dst: Path) {
    && src in before
    && if Holds(after, dst, before[src].content) then src !in after || after[src] == before[src]
       else src in after && after[src] == before[src]
            && (dst in after <==> dst in before) && (dst in before && before[dst].synced ==> after[dst] == before[dst])
  }

  /** The same for a first move that no operation fails, to a free name: nowhere else is anything left behind. */
  ghost predicate Carried(before: Files, after: Files, src: Path, dst: Path, sameDevice: bool)
    requires src in before
  {
    && Spared(before, after, if sameDevice then {src, dst} else {src, dst, WithSuffix(dst, PARTIAL)})
    && (|| (src in after && after[src] == before[src] && dst !in after)
        || (Holds(after, dst, before[src].content)
            && (sameDevice || WithSuffix(dst, PARTIAL) !in after)
            && (src in after ==> !sameDevice && after[src] == before[src])))
  }

  /** What a move leaves that nothing interrupts. */
  function Moved(files: Files, src: Path, dst: Path, sameDevice: bool): Files
    requires src in files
  {
    if sameDevice then Renamed(files, src, dst)
    else (files - {src, WithSuffix(dst, PARTIAL)})[dst := File(files[src].content, true)]
  }

  /**
    * Renames, or across devices copies to a scratch file, syncs it, renames that onto the destination and only
    * then removes the source.
    */
  method MoveFileProgress(disk: Device, src: Path, dst: Path, sameDevice: bool) returns (r: Result)
    requires src != dst && src != WithSuffix(dst, PARTIAL) && dst != WithSuffix(dst, PARTIAL)
    modifies disk`files
    ensures Spared(old(disk.files), disk.files, {src, dst, WithSuffix(dst, PARTIAL)})
    ensures src !in old(disk.files) ==> !r.Done? && Spared(old(disk.files), disk.files, {})
    ensures src in old(disk.files) && old(disk.files)[src].synced ==>
      && MidMove(old(disk.files), disk.files, src, dst)
      && (r.Done? ==> src !in disk.files && Holds(disk.files, dst, old(disk.files)[src].content))
    ensures r.Done? ==> src !in disk.files
    ensures !disk.errors && src in old(disk.files) && old(disk.files)[src].synced && dst !in old(disk.files) ==>
      Carried(old(disk.files), disk.files, src, dst, sameDevice)
    ensures disk.Calm() && src in old(disk.files) ==> r.Done? && disk.files == Moved(old(disk.files), src, dst, sameDevice)
  {
    if sameDevice {
      r := disk.Rename(src, dst);
      if !r.Error? {
        return;
      }
    }
    r := CopyAcross(disk, src, dst);
  }

  /** The same between devices. */
  method CopyAcross(disk: Device, src: Path, dst: Path) returns (r: Result)
    requires src != dst && src != WithSuffix(dst, PARTIAL) && dst != WithSuffix(dst, PARTIAL)
    modifies disk`files
    ensures Spared(old(disk.files), disk.files, {src, dst, WithSuffix(dst, PARTIAL)})
    ensures src !in old(disk.files) ==> !r.Done? && Spared(old(disk.files), disk.files, {})
    ensures src in old(disk.files) && old(disk.files)[src].synced ==> MidMove(old(disk.files), disk.files, src, dst)
    ensures r.Done? ==> src in old(disk.files) && disk.files == Moved(old(disk.files), src, dst, false)
    ensures !disk.errors && src in old(disk.files) && old(disk.files)[src].synced && dst !in old(disk.files) ==>
      Carried(old(disk.files), disk.files, src, dst, false)
    ensures disk.Calm() && src in old(disk.files) ==> r.Done?
  {
    r := disk.Other();
    if !r.Done? {
      return;
    }
    if src !in disk.files {
      return Error;
    }
    var partial := WithSuffix(dst, PARTIAL);
    r := CopyToScratch(disk, src, partial);
    if !r.Done? {
      return;
    }
    r := Publish(disk, src, partial, dst);
  }

  /** A complete scratch file takes the destination's place, and then the source goes. */
  method Publish(disk: Device, src: Path, partial: Path, dst: Path) returns (r: Result)
    requires src != dst && src != partial && dst != partial
    requires src in disk.files && partial in disk.files && disk.files[partial].synced
    modifies disk`files
    ensures r.Done? ==> disk.files == (old(disk.files) - {src, partial})[dst := old(disk.files)[partial]]
    ensures Spared(old(disk.files), disk.files, {src, dst, partial})
    ensures || (Published(old(disk.files), disk.files, dst, partial)
                && (src in disk.files && old(disk.files)[src].synced ==> disk.files[src] == old(disk.files)[src]))
            || Spared(old(disk.files), disk.files, {partial})
    ensures disk.Calm() ==> r.Done?
  {
    r := disk.Rename(partial, dst);
    if r.Error? {
      r := Discard(disk, partial);
    }
    if !r.Done? {
      return;
    }
    r := disk.Remove(src);
  }

  ghost predicate Published(before: Files, after: Files, dst: Path, partial: Path)
    requires partial in before
  {
    dst in after && after[dst] == before[partial] && partial !in after
  }

  /** Drops the scratch file of a copy that failed, and reports the failure. */
  method Discard(disk: Device, partial: Path) returns (r: Result)
    modifies disk`files
    ensures Spared(old(disk.files), disk.files, {partial}) && !r.Done?
  {
    r := disk.Remove(partial);
    if r.Done? {
      r := Error;
    }
  }

  /** Only the scratch file is written; success leaves it complete and synced. */
  method CopyToScratch(disk: Device, src: Path, partial: Path) returns (r: Result)
    requires src in disk.files && src != partial
    modifies disk`files
    ensures Spared(old(disk.files), disk.files, {partial})
    ensures r.Done? ==> disk.files == old(disk.files)[partial := File(old(disk.files)[src].content, true)]
    ensures disk.Calm() ==> r.Done?
  {
    var data := disk.files[src].content;
    r := disk.Create(partial);
    if !r.Done? {
      return;
    }
    var n := 0;
    while n < |data|
      invariant 0 <= n <= |data|
      invariant disk.files == old(disk.files)[partial := File(data[..n], false)]
    {
      var m := if n + CHUNK < |data| then n + CHUNK else |data|;
      assert data[..n] + data[n..m] == data[..m];
      r := disk.Append(partial, data[n..m]);
      var canceled := disk.Canceled();
      if !r.Done? || canceled {
        if !r.Crash? {
          r := Discard(disk, partial);
        }
        return;
      }
      n := m;
    }
    assert data[..|data|] == data;
    r := disk.Sync(partial);
    if r.Done? {
      r := disk.Other();
    }
    if r.Error? {
      r := Discard(disk, partial);
    }
  }

  // ---- One file, through any number of attempts ----

  /** The names a file can have on its way: complete in the cache, and at its destination. */
  datatype Names = Names(src: Path, dst: Path) {
    function Unfinished(): Path { WithSuffix(src, PART) }
    function Scratch(): Path { WithSuffix(dst, PARTIAL) }
    function Arriving(): Path { WithSuffix(dst, PART) }

    ghost function All(): set<Path> {
      {src, Unfinished(), dst, Scratch(), Arriving()}
    }

    ghost predicate Distinct() {
      |All()| == 5
    }
  }

  ghost predicate InCache(files: Files, n: Names) {
    n.src in files || n.Unfinished() in files
  }

  /**
    * The data is safe: one complete copy in the cache, under either name, or at the destination, under its final
    * name or still unrenamed; and the destination holds all of it or what it held at first, `was`.
    */
  ghost predicate Safe(files: Files, n: Names, data: Bytes, was: Option<Bytes>) {
    && (|| (Holds(files, n.src, data) && n.Unfinished() !in files)
        || (Holds(files, n.Unfinished(), data) && n.src !in files)
        || (!InCache(files, n) && Holds(files, n.dst, data))
        || (!InCache(files, n) && n.dst !in files && Holds(files, n.Arriving(), data)))
    && (if n.dst in files then Holds(files, n.dst, data) || (was.Some? && Holds(files, n.dst, was.value)) else was.None?)
  }

  /** A file of the same size already at the destination is taken for the same file. */
  ghost predicate SizeTells(data: Bytes, was: Option<Bytes>) {
    was.Some? && |was.value| == |data| ==> was.value == data
  }

  /** The final name, or the one of an unfinished download that the storage has not renamed yet. */
  function ResolveCompletedSrc(files: Files, n: Names): Option<Path> {
    if n.src in files then Some(n.src) else if n.Unfinished() in files then Some(n.Unfinished()) else None
  }

  /** There is something to move, or it has been. */
  predicate Found(files: Files, n: Names) {
    ResolveCompletedSrc(files, n).Some? || n.dst in files || n.Arriving() in files
  }

  /** What an attempt leaves that nothing interrupts. */
  function Relocated(files: Files, n: Names, sameDevice: bool): Files {
    match ResolveCompletedSrc(files, n)
    case None => if n.dst !in files && n.Arriving() in files then Renamed(files, n.Arriving(), n.dst) else files
    case Some(src) =>
      if n.dst in files && |files[n.dst].content| == |files[src].content| then files - {src}
      else Moved(files, src, n.dst, sameDevice)
  }

  /** An attempt that no operation fails, wherever it stops. */
  ghost predicate Tried(before: Files, after: Files, n: Names, data: Bytes, sameDevice: bool, done: bool) {
    && (Holds(before, n.src, data) && n.dst !in before ==> Carried(before, after, n.src, n.dst, sameDevice))
    && (Holds(before, n.src, data) && Holds(before, n.dst, data) ==>
          Spared(before, after, {n.src}) && (n.src in after ==> Holds(after, n.src, data)))
    && (Holds(before, n.src, data) && done ==> n.src !in after)
    && (!InCache(before, n) && n.dst in before ==> done && after == before)
  }

  /** One attempt at moving a completed file. Were the destination the file itself, the attempt would delete it. */
  method Relocate(disk: Device, n: Names, dir: Path, sameDevice: bool, ghost data: Bytes, ghost was: Option<Bytes>)
    returns (r: Result)
    requires n.Distinct() || (n.src == n.dst && n.src in disk.files)
    modifies disk
    ensures old(disk.dirs) <= disk.dirs <= old(disk.dirs) + Above(dir)
    ensures Spared(old(disk.files), disk.files, n.All())
    ensures n.src == n.dst && disk.Calm() ==> disk.files == old(disk.files) - {n.src}
    ensures n.Distinct() && SizeTells(data, was) && old(Safe(disk.files, n, data, was)) ==>
              Safe(disk.files, n, data, was) && (r.Done? || old(Holds(disk.files, n.dst, data)) ==> Holds(disk.files, n.dst, data))
              && (disk.Calm() ==> r.Done? && !InCache(disk.files, n))
    ensures n.Distinct() && !disk.errors ==> Tried(old(disk.files), disk.files, n, data, sameDevice, r.Done?)
    ensures n.Distinct() && disk.Calm() ==>
      disk.files == Relocated(old(disk.files), n, sameDevice) && r == if old(Found(disk.files, n)) then Done else Error
    ensures !old(InCache(disk.files, n)) && n.dst !in old(disk.files) && n.Arriving() !in old(disk.files) ==>
              r.Error? && disk.files == old(disk.files)
  {
    var src := ResolveCompletedSrc(disk.files, n);
    if src.None? {
      if n.dst in disk.files {
        return Done;
      }
      if n.Arriving() in disk.files {
        r := disk.Rename(n.Arriving(), n.dst);
        return;
      }
      return Error;
    }
    if n.dst in disk.files && |disk.files[n.dst].content| == |disk.files[src.value].content| {
      r := disk.Remove(src.value);
      if r.Error? {
        r := Done;
      }
      return;
    }
    r := disk.MkdirAll(dir);
    if r.Done? {
      r := MoveFileProgress(disk, src.value, n.dst, sameDevice);
    }
  }

  function SingleNames(dataDir: Path, destDir: Path, rel: string): Names {
    Names(Join(dataDir, rel), Join(destDir, Base(rel)))
  }

  /** From wherever the torrent has it in the cache, to its last name directly below the destination. */
  lemma Flattened(dataDir: Path, destDir: Path, rel: string)
    ensures SingleNames(dataDir, destDir, rel).src == Join(dataDir, rel)
    ensures EndsInName(rel) ==> SingleNames(dataDir, destDir, rel).dst == destDir + [Split(rel)[|Split(rel)| - 1]]
  {
    if EndsInName(rel) {
      BaseOfLast(rel);
      JoinName(destDir, Base(rel));
    }
  }

  /** The single-file move flattens the torrent's tree into the destination. */
  method MoveDownloadedFile(disk: Device, dataDir: Path, destDir: Path, rel: string, sameDevice: bool,
                            ghost data: Bytes, ghost was: Option<Bytes>) returns (r: Result)
    requires SingleNames(dataDir, destDir, rel).Distinct()
    modifies disk
    ensures var n := SingleNames(dataDir, destDir, rel);
      && Spared(old(disk.files), disk.files, n.All())
      && (SizeTells(data, was) && old(Safe(disk.files, n, data, was)) ==>
            && Safe(disk.files, n, data, was) && (r.Done? ==> Holds(disk.files, n.dst, data))
            && (disk.Calm() ==> r.Done? && !InCache(disk.files, n)))
    ensures EndsInName(rel) && SizeTells(data, was) && old(Safe(disk.files, SingleNames(dataDir, destDir, rel), data, was)) ==>
      (r.Done? ==> Holds(disk.files, destDir + [Split(rel)[|Split(rel)| - 1]], data))
  {
    Flattened(dataDir, destDir, rel);
    r := Relocate(disk, SingleNames(dataDir, destDir, rel), destDir, sameDevice, data, was);
  }

  // ---- Finalizing where the file already is ----

  /** Where a download that was written straight into a destination directory would be. */
  function BulkPath(dir: Path, name: string, rel: string): Path {
    Join(dir, TrimPrefix(rel, name + "/"))
  }

  /** Below the directory by the path the torrent has below its own folder. */
  lemma BulkPathOf(dir: Path, name: string, rest: string)
    ensures BulkPath(dir, name, name + "/" + rest) == Join(dir, rest)
    ensures (forall s <- Split(rest) :: IsName(s)) ==> BulkPath(dir, name, name + "/" + rest) == dir + Split(rest)
  {
    assert TrimPrefix(name + "/" + rest, name + "/") == rest;
    if forall s <- Split(rest) :: IsName(s) {
      FollowNames(dir, Split(rest));
    }
  }

  /** The first of the directories that has such a file: its size is not looked at. */
  function FinalizedAt(files: Files, dirs: seq<Path>, name: string, rel: string): Option<Path> {
    if dirs == [] then None
    else if BulkPath(dirs[0], name, rel) in files then Some(BulkPath(dirs[0], name, rel))
    else FinalizedAt(files, dirs[1..], name, rel)
  }

  lemma {:induction false} FinalizedAtIs(files: Files, dirs: seq<Path>, name: string, rel: string)
    ensures match FinalizedAt(files, dirs, name, rel)
      case None => forall d <- dirs :: BulkPath(d, name, rel) !in files
      case Some(p) => exists k :: 0 <= k < |dirs| && p == BulkPath(dirs[k], name, rel) && p in files
                                  && forall j :: 0 <= j < k ==> BulkPath(dirs[j], name, rel) !in files
  {
    if dirs != [] {
      assert dirs == [dirs[0]] + dirs[1..];
      FinalizedAtIs(files, dirs[1..], name, rel);
      var rest := FinalizedAt(files, dirs[1..], name, rel);
      if rest.Some? && BulkPath(dirs[0], name, rel) !in files {
        var k :| 0 <= k < |dirs[1..]| && rest.value == BulkPath(dirs[1..][k], name, rel)
                 && forall j :: 0 <= j < k ==> BulkPath(dirs[1..][j], name, rel) !in files;
        forall j | 0 <= j < k + 1 ensures BulkPath(dirs[j], name, rel) !in files {
          assert j > 0 ==> dirs[j] == dirs[1..][j - 1];
        }
        assert dirs[k + 1] == dirs[1..][k];
      }
    }
  }

  /** The place a success reports holds the data: so it was there before, or nothing was where it is looked for. */
  ghost predicate Reliable(files: Files, dirs: seq<Path>, name: string, rel: string, data: Bytes) {
    var found := FinalizedAt(files, dirs, name, rel);
    found.None? || Holds(files, found.value, data)
  }

  const MAX_ATTEMPTS := 3

  /**
    * The attempts of one process, unless a file is found at its destination; between two of them the process may
    * be told to stop. A success leaves the data where it says exactly when what was found there was the data.
    */
  method AttemptCompletionMove(disk: Device, dirs: seq<Path>, name: string, dataDir: Path, destDir: Path, rel: string,
                               ghost data: Bytes, ghost was: Option<Bytes>)
    returns (r: Result, at: Path, ghost attempts: nat)
    requires var n := SingleNames(dataDir, destDir, rel); n.Distinct() && SizeTells(data, was) && Safe(disk.files, n, data, was)
    modifies disk
    ensures Safe(disk.files, SingleNames(dataDir, destDir, rel), data, was)
    ensures Spared(old(disk.files), disk.files, SingleNames(dataDir, destDir, rel).All())
    ensures var found := FinalizedAt(old(disk.files), dirs, name, rel);
      found.Some? ==> r.Done? && at == found.value && disk.files == old(disk.files)
    ensures FinalizedAt(old(disk.files), dirs, name, rel).None? ==> at == SingleNames(dataDir, destDir, rel).dst
    ensures r.Done? ==> (Holds(disk.files, at, data) <==> old(Reliable(disk.files, dirs, name, rel, data)))
    ensures disk.Calm() ==> r.Done?
    ensures attempts <= 3
  {
    var n := SingleNames(dataDir, destDir, rel);
    var found := FinalizedAt(disk.files, dirs, name, rel);
    attempts := 0;
    if found.Some? {
      return Done, found.value, 0;
    }
    r, at := Error, n.dst;
    for attempt := 0 to MAX_ATTEMPTS
      invariant !r.Done? && Safe(disk.files, n, data, was) && at == n.dst && attempts == attempt
      invariant Spared(old(disk.files), disk.files, n.All())
      invariant disk.Calm() ==> attempt == 0
    {
      var canceled := disk.Canceled();
      if canceled {
        return Error, at, attempts;
      }
      attempts := attempts + 1;
      var sameDevice: bool := *;
      r := MoveDownloadedFile(disk, dataDir, destDir, rel, sameDevice, data, was);
      var stopped: bool := *;
      if !r.Error? || stopped {
        return;
      }
    }
  }

  /**
    * Any number of processes, each killed or giving up wherever it may: the data is safe throughout, and the
    * destination never holds part of it. The first success leaves it there complete exactly when, at the start,
    * no file was found where the download might have been written, or the one found was the data.
    */
  method Recover(disk: Device, dirs: seq<Path>, name: string, dataDir: Path, destDir: Path, rel: string, lives: nat,
                 ghost data: Bytes, ghost was: Option<Bytes>) returns (moved: bool, at: Path)
    requires var n := SingleNames(dataDir, destDir, rel); n.Distinct() && SizeTells(data, was) && Safe(disk.files, n, data, was)
    requires forall d <- dirs :: var p := BulkPath(d, name, rel);
      p == SingleNames(dataDir, destDir, rel).dst || p !in SingleNames(dataDir, destDir, rel).All()
    modifies disk
    ensures Safe(disk.files, SingleNames(dataDir, destDir, rel), data, was)
    ensures moved ==> (Holds(disk.files, at, data) <==> old(Reliable(disk.files, dirs, name, rel, data)))
    ensures disk.Calm() && lives > 0 ==> moved
  {
    var n := SingleNames(dataDir, destDir, rel);
    moved, at := false, n.dst;
    for life := 0 to lives
      invariant !moved && Safe(disk.files, n, data, was)
      invariant Spared(old(disk.files), disk.files, n.All())
      invariant life == 0 ==> disk.files == old(disk.files)
      invariant life > 0 ==> FinalizedAt(old(disk.files), dirs, name, rel).None?
      invariant disk.Calm() ==> life == 0
    {
      ghost var files := disk.files;
      var r: Result;
      ghost var attempts: nat;
      r, at, attempts := AttemptCompletionMove(disk, dirs, name, dataDir, destDir, rel, data, was);
      if r.Done? {
        if life > 0 {
          ArrivedOnly(old(disk.files), files, dirs, name, rel, n, data, was);
        }
        return true, at;
      }
    }
  }

  /** Where nothing was found at first, what is found later is what has been moved there. */
  lemma ArrivedOnly(before: Files, after: Files, dirs: seq<Path>, name: string, rel: string, n: Names, data: Bytes,
                    was: Option<Bytes>)
    requires FinalizedAt(before, dirs, name, rel).None? && Spared(before, after, n.All())
    requires Safe(before, n, data, was) && Safe(after, n, data, was)
    requires forall d <- dirs :: BulkPath(d, name, rel) == n.dst || BulkPath(d, name, rel) !in n.All()
    ensures Reliable(after, dirs, name, rel, data)
  {
    FinalizedAtIs(before, dirs, name, rel);
    FinalizedAtIs(after, dirs, name, rel);
  }
}
