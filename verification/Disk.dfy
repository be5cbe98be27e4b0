/** A disk whose operations can fail, and on which the process can die at any of them. */
module Disk {
  import opened Paths

  type Bytes = string

  /** What is not synced may come back as anything after a crash. */
  datatype File = File(content: Bytes, synced: bool)

  type Files = map<Path, File>

  datatype Result = Done | Error | Crash

  /** What a crash leaves of `before`: the same names, and what was synced. */
  predicate Survives(before: Files, after: Files) {
    after.Keys == before.Keys && forall p | p in before.Keys :: before[p].synced ==> after[p] == before[p]
  }

  function Renamed(files: Files, from: Path, to: Path): Files
    requires from in files
  {
    if from == to then files else (files - {from})[to := files[from]]
  }

  /** A directory and those it lies in. */
  function Above(dir: Path): set<Path> {
    set n | 0 <= n <= |dir| :: dir[..n]
  }

  class Device {
    var files: Files
    var dirs: set<Path>
    /** Renames and removals may fail too, and not only where they cannot be done. */
    const errors: bool
    /** The process may die in any operation, its work may be cancelled, and any other operation may fail. */
    const stops: bool

    constructor (files: Files, dirs: set<Path>, errors: bool, stops: bool)
      ensures this.files == files && this.dirs == dirs && this.errors == errors && this.stops == stops
    {
      this.files, this.dirs, this.errors, this.stops := files, dirs, errors, stops;
    }

    predicate Calm() {
      !errors && !stops
    }

    /** The process dies. */
    method Die()
      modifies this`files
      ensures Survives(old(files), files)
    {
      var left: Files := *;
      if Survives(files, left) {
        files := left;
      }
    }

    /** Whether the next operation, with or without the right to fail, goes through. */
    method Fate(fallible: bool) returns (r: Result)
      ensures r.Error? ==> fallible
      ensures r.Crash? ==> stops
    {
      r := *;
      if (r.Error? && !fallible) || (r.Crash? && !stops) {
        r := Done;
      }
    }

    method Canceled() returns (r: bool)
      ensures r ==> stops
    {
      r := *;
      r := r && stops;
    }

    /** Replaces `to` at once; a crash leaves it done or not. */
    method Rename(from: Path, to: Path) returns (r: Result)
      modifies this`files
      ensures r.Done? ==> from in old(files) && files == Renamed(old(files), from, to)
      ensures r.Error? ==> files == old(files) && (errors || from !in old(files))
      ensures r.Crash? ==> stops
      ensures r.Crash? ==> Survives(old(files), files)
                           || (from in old(files) && Survives(Renamed(old(files), from, to), files))
    {
      r := Fate(errors);
      var late: bool := *;
      if r.Done? && from !in files {
        return Error;
      }
      if r.Done? || (r.Crash? && late && from in files) {
        files := Renamed(files, from, to);
      }
      if r.Crash? {
        Die();
      }
    }

    method Remove(p: Path) returns (r: Result)
      modifies this`files
      ensures r.Done? ==> p in old(files) && files == old(files) - {p}
      ensures r.Error? ==> files == old(files) && (errors || p !in old(files))
      ensures r.Crash? ==> stops && (Survives(old(files), files) || Survives(old(files) - {p}, files))
    {
      r := Fate(errors);
      var late: bool := *;
      if r.Done? && p !in files {
        return Error;
      }
      if r.Done? || (r.Crash? && late) {
        files := files - {p};
      }
      if r.Crash? {
        Die();
      }
    }

    /** Opens a file for writing, emptied. */
    method Create(p: Path) returns (r: Result)
      modifies this`files
      ensures r.Done? ==> files == old(files)[p := File([], false)]
      ensures r.Error? ==> files == old(files) && (errors || stops)
      ensures r.Crash? ==> stops && (Survives(old(files), files) || Survives(old(files)[p := File([], false)], files))
    {
      r := Fate(errors || stops);
      var late: bool := *;
      if r.Done? || (r.Crash? && late) {
        files := files[p := File([], false)];
      }
      if r.Crash? {
        Die();
      }
    }

    /** Writes at the end of an open file; a failed write may have written part of it. */
    method Append(p: Path, bytes: Bytes) returns (r: Result)
      requires p in files
      modifies this`files
      ensures r.Done? ==> files == old(files)[p := File(old(files)[p].content + bytes, false)]
      ensures r.Error? ==> p in files && files == old(files)[p := files[p]] && !files[p].synced && (errors || stops)
      ensures r.Crash? ==> stops && Survives(old(files)[p := File([], false)], files)
    {
      r := Fate(errors || stops);
      if r.Done? {
        files := files[p := File(files[p].content + bytes, false)];
      } else {
        var c: Bytes := *;
        files := files[p := File(c, false)];
      }
      if r.Crash? {
        assert Survives(old(files)[p := File([], false)], files);
        Die();
      }
    }

    method Sync(p: Path) returns (r: Result)
      requires p in files
      modifies this`files
      ensures r.Done? ==> files == old(files)[p := File(old(files)[p].content, true)]
      ensures r.Error? ==> files == old(files) && (errors || stops)
      ensures r.Crash? ==> stops && Survives(old(files)[p := File(old(files)[p].content, false)], files)
    {
      r := Fate(errors || stops);
      if r.Done? {
        files := files[p := File(files[p].content, true)];
      }
      if r.Crash? {
        files := files[p := File(files[p].content, false)];
        Die();
      }
    }

    /** Anything else that may fail and changes no file: closing, opening for reading. */
    method Other() returns (r: Result)
      modifies this`files
      ensures !r.Crash? ==> files == old(files)
      ensures r.Error? ==> errors || stops
      ensures r.Crash? ==> stops && Survives(old(files), files)
    {
      r := Fate(errors || stops);
      if r.Crash? {
        Die();
      }
    }

    /** Makes a directory and those above it; one that fails may have made some. */
    method MkdirAll(dir: Path) returns (r: Result)
      modifies this
      ensures old(dirs) <= dirs <= old(dirs) + Above(dir)
      ensures r.Done? ==> dirs == old(dirs) + Above(dir)
      ensures !r.Crash? ==> files == old(files)
      ensures r.Error? ==> errors || stops
      ensures r.Crash? ==> stops && Survives(old(files), files)
    {
      r := Other();
      var made: set<Path> := *;
      dirs := dirs + (if r.Done? then Above(dir) else made * Above(dir));
    }
  }
}
