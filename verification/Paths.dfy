/** Slash-separated paths, as Go's `filepath` cleans and joins them on Unix. */
module Paths {
  import opened Options

  /** A cleaned absolute path: its segments, none of which is "", "." or "..". */
  type Path = seq<string>

  ghost predicate Clean(p: Path) {
    forall s <- p :: s != "" && s != "." && s != ".." && '/' !in s
  }

  function AddChar(segments: seq<string>, c: char): seq<string>
    requires segments != []
  {
    if c == '/' then segments + [""] else segments[..|segments| - 1] + [segments[|segments| - 1] + [c]]
  }

  function Split(s: string): (r: seq<string>)
    ensures |r| > 0 && forall x <- r :: '/' !in x
  {
    if s == "" then [""] else AddChar(Split(s[..|s| - 1]), s[|s| - 1])
  }

  /** Following segments from a path: "." stays, ".." goes up, and stays at the root. */
  function Follow(from: Path, segments: seq<string>): Path {
    if segments == [] then from
    else
      var at, s := Follow(from, segments[..|segments| - 1]), segments[|segments| - 1];
      if s == "" || s == "." then at
      else if s == ".." then (if at == [] then [] else at[..|at| - 1])
      else at + [s]
  }

  function Join(dir: Path, rel: string): Path {
    Follow(dir, Split(rel))
  }

  /** How deep below its start a run of segments ends, if going up never leaves the start. */
  function Depth(segments: seq<string>): Option<nat> {
    if segments == [] then Some(0)
    else
      var d, s := Depth(segments[..|segments| - 1]), segments[|segments| - 1];
      if d.None? then None
      else if s == "" || s == "." then d
      else if s == ".." then (if d.value == 0 then None else Some(d.value - 1))
      else Some(d.value + 1)
  }

  /** The path stays below wherever it is followed from. */
  predicate IsLocal(rel: string) {
    rel != "" && rel[0] != '/' && Depth(Split(rel)).Some?
  }

  function TrimPrefix(s: string, prefix: string): string {
    if prefix <= s then s[|prefix|..] else s
  }

  /** The destination of a torrent's file, unless its path would leave the directory. */
  function WholeTorrentDest(destDir: Path, torrentName: string, rel: string): Option<Path> {
    if !IsLocal(rel) then None
    else
      var stripped := TrimPrefix(rel, torrentName + "/");
      if !IsLocal(stripped) then None else Some(Join(destDir, stripped))
  }

  function TrimSlashes(s: string): string {
    if s != "" && s[|s| - 1] == '/' then TrimSlashes(s[..|s| - 1]) else s
  }

  /** The last element of a path, as `filepath.Base` gives it. */
  function Base(rel: string): string {
    var t := TrimSlashes(rel);
    if rel == "" then "." else if t == "" then "/" else Split(t)[|Split(t)| - 1]
  }

  predicate IsPadPath(torrentName: string, rel: string) {
    ".pad/" <= TrimPrefix(rel, torrentName + "/")
  }

  lemma {:induction false} FollowBelow(dir: Path, segments: seq<string>)
    requires Depth(segments).Some?
    ensures dir <= Follow(dir, segments) && |Follow(dir, segments)| == |dir| + Depth(segments).value
  {
    if segments != [] {
      FollowBelow(dir, segments[..|segments| - 1]);
    }
  }

  lemma {:induction false} FollowClean(dir: Path, segments: seq<string>)
    requires Clean(dir) && forall s <- segments :: '/' !in s
    ensures Clean(Follow(dir, segments))
  {
    if segments != [] {
      FollowClean(dir, segments[..|segments| - 1]);
    }
  }

  /** From a directory of a name that does not occur in them, segments that go up past it lose that name. */
  lemma {:induction false} UpLosesName(segments: seq<string>, z: string)
    requires z !in segments && z != "" && z != "." && z != ".."
    ensures Depth(segments).None? ==> z !in Follow([z], segments)
  {
    if segments != [] {
      var init := segments[..|segments| - 1];
      assert segments[|segments| - 1] in segments && forall s <- init :: s in segments;
      UpLosesName(init, z);
      if Depth(init).Some? {
        FollowBelow([z], init);
      }
    }
  }

  /** A name that does not occur in the segments. */
  ghost function NewName(segments: seq<string>): (z: string)
    ensures |z| > 2 && forall s <- segments :: |s| < |z|
  {
    if segments == [] then "new"
    else
      assert segments == segments[..|segments| - 1] + [segments[|segments| - 1]];
      NewName(segments[..|segments| - 1]) + segments[|segments| - 1] + "."
  }

  /** Segments never go up past their start exactly when from every directory they lead inside it. */
  lemma StaysExactly(segments: seq<string>)
    ensures Depth(segments).Some? <==> forall dir: Path :: dir <= Follow(dir, segments)
  {
    if Depth(segments).Some? {
      forall dir: Path ensures dir <= Follow(dir, segments) {
        FollowBelow(dir, segments);
      }
    } else {
      var z := NewName(segments);
      UpLosesName(segments, z);
      assert !([z] <= Follow([z], segments)) by {
        assert [z][0] == z;
      }
    }
  }

  /** A path is local exactly when it is neither empty nor absolute and leads inside every directory. */
  lemma LocalExactly(rel: string)
    ensures IsLocal(rel) <==> rel != "" && rel[0] != '/' && forall dir: Path :: dir <= Join(dir, rel)
  {
    StaysExactly(Split(rel));
    assert forall dir: Path :: Join(dir, rel) == Follow(dir, Split(rel));
    if Depth(Split(rel)).Some? {
      forall dir: Path ensures dir <= Join(dir, rel) {
        assert dir <= Follow(dir, Split(rel));
      }
    } else {
      var dir: Path :| !(dir <= Follow(dir, Split(rel)));
      assert !(dir <= Join(dir, rel));
    }
  }

  lemma {:induction false} NoSlash(s: string)
    requires '/' !in s
    ensures Split(s) == [s]
  {
    if s != "" {
      NoSlash(s[..|s| - 1]);
      assert s[..|s| - 1] + [s[|s| - 1]] == s;
    }
  }

  lemma AddCharConcat(x: seq<string>, y: seq<string>, c: char)
    requires y != []
    ensures AddChar(x + y, c) == x + AddChar(y, c)
  {
    assert (x + y)[..|x + y| - 1] == x + y[..|y| - 1];
  }

  lemma SplitOne(s: string, c: char)
    ensures Split(s + [c]) == AddChar(Split(s), c)
  {
    assert (s + [c])[..|s|] == s;
  }

  lemma {:induction false} SplitConcat(a: string, b: string)
    ensures Split(a + ['/'] + b) == Split(a) + Split(b)
  {
    if b == "" {
      assert a + ['/'] + b == a + ['/'];
      SplitOne(a, '/');
    } else {
      var init, c := b[..|b| - 1], b[|b| - 1];
      SplitConcat(a, init);
      AddCharConcat(Split(a), Split(init), c);
      assert a + ['/'] + b == a + ['/'] + init + [c];
      SplitOne(a + ['/'] + init, c);
    }
  }

  lemma DownAndUp(name: string, up: string)
    requires name != "" && name != "." && name != ".." && up == ".."
    ensures Depth([name] + [up]) == Some(0) && Depth([up]) == None
  {
    assert ([name] + [up])[..1] == [name] && [name][..0] == [] && [up][..0] == [];
    assert Depth([name]) == Some(1);
  }

  lemma ParentOutside(dir: Path, up: string)
    requires dir != [] && up == ".."
    ensures !(dir <= Follow(dir, [up]))
  {
    assert [up][..0] == [];
  }

  /** Stripping the torrent's folder can make a local path lead outside, so the second check is needed. */
  lemma StrippedCanEscape(dir: Path, name: string, up: string)
    requires '/' !in name && name != "" && name != "." && name != ".." && dir != [] && up == ".."
    ensures var rel := name + "/" + up;
            IsLocal(rel) && !(dir <= Join(dir, TrimPrefix(rel, name + "/"))) && WholeTorrentDest(dir, name, rel) == None
  {
    var rel := name + "/" + up;
    NoSlash(name);
    NoSlash(up);
    assert name + "/" == name + ['/'];
    SplitConcat(name, up);
    DownAndUp(name, up);
    ParentOutside(dir, up);
    assert TrimPrefix(rel, name + "/") == up;
  }

  /** Whatever a torrent calls its files, a destination lies inside the directory. */
  lemma DestContained(destDir: Path, torrentName: string, rel: string)
    requires Clean(destDir)
    ensures var r := WholeTorrentDest(destDir, torrentName, rel);
            r.Some? ==> destDir <= r.value && Clean(r.value)
  {
    var stripped := TrimPrefix(rel, torrentName + "/");
    if IsLocal(rel) && IsLocal(stripped) {
      FollowBelow(destDir, Split(stripped));
      FollowClean(destDir, Split(stripped));
    }
  }

  // ---- Paths made of names ----

  /** A name of its own, and not a way to stay or to go up. */
  predicate IsName(s: string) {
    '/' !in s && s != "" && s != "." && s != ".."
  }

  /** The last element of the path is a name. */
  predicate EndsInName(rel: string) {
    IsName(Split(rel)[|Split(rel)| - 1])
  }

  /** Following names goes down by each of them. */
  lemma {:induction false} FollowNames(from: Path, names: seq<string>)
    requires forall s <- names :: IsName(s)
    ensures Follow(from, names) == from + names
  {
    if names != [] {
      var init, last := names[..|names| - 1], names[|names| - 1];
      assert IsName(last) by { assert last in names; }
      FollowNames(from, init);
      assert names == init + [last] && from + names == (from + init) + [last];
    }
  }

  lemma JoinName(dir: Path, x: string)
    requires IsName(x)
    ensures Join(dir, x) == dir + [x]
  {
    NoSlash(x);
    FollowNames(dir, [x]);
  }

  lemma BaseOfLast(rel: string)
    requires EndsInName(rel)
    ensures Base(rel) == Split(rel)[|Split(rel)| - 1]
  {
    assert rel != "" && rel[|rel| - 1] != '/';
    assert TrimSlashes(rel) == rel;
  }

  lemma BaseName(x: string)
    requires IsName(x)
    ensures Base(x) == x
  {
    NoSlash(x);
    BaseOfLast(x);
  }

  lemma NoPrefix(x: string, p: string)
    requires '/' !in x && p != "" && p[|p| - 1] == '/'
    ensures TrimPrefix(x, p) == x
  {
    assert forall k | 0 <= k < |x| :: x[k] in x;
  }

  lemma {:induction false} NamesGoDown(names: seq<string>)
    requires forall s <- names :: IsName(s)
    ensures Depth(names) == Some(|names|)
  {
    if names != [] {
      NamesGoDown(names[..|names| - 1]);
      assert names[|names| - 1] in names;
    }
  }

  /** A path of names below the torrent's folder arrives by the same names below the destination. */
  lemma DestOf(destDir: Path, name: string, rest: string)
    requires IsName(name) && forall s <- Split(rest) :: IsName(s)
    ensures WholeTorrentDest(destDir, name, name + "/" + rest) == Some(destDir + Split(rest))
  {
    var rel := name + "/" + rest;
    assert name + "/" == name + ['/'];
    SplitConcat(name, rest);
    NoSlash(name);
    NamesGoDown([name] + Split(rest));
    NamesGoDown(Split(rest));
    LocalNames(rel);
    LocalNames(rest);
    assert TrimPrefix(rel, name + "/") == rest;
    FollowNames(destDir, Split(rest));
  }

  lemma LocalNames(rel: string)
    requires Depth(Split(rel)).Some? && forall s <- Split(rel) :: IsName(s)
    ensures IsLocal(rel)
  {
    assert IsName(Split(rel)[0]) by { assert Split(rel)[0] in Split(rel); }
    if rel != "" {
      FirstSegment(rel);
    }
  }

  lemma {:induction false} FirstSegment(rel: string)
    requires rel != ""
    ensures Split(rel)[0] == "" <==> rel[0] == '/'
  {
    if |rel| > 1 {
      FirstSegment(rel[..|rel| - 1]);
    } else {
      assert rel[..0] == "";
    }
  }

  /** In general it arrives where the rest leads from the destination, if neither it nor the rest leads up. */
  lemma DestInFolder(destDir: Path, name: string, rest: string)
    ensures WholeTorrentDest(destDir, name, name + "/" + rest) ==
      if IsLocal(name + "/" + rest) && IsLocal(rest) then Some(Join(destDir, rest)) else None
  {
    assert TrimPrefix(name + "/" + rest, name + "/") == rest;
  }

  /** Padding is exactly what lies below ".pad/", whether the torrent's folder is named before it or not. */
  lemma PadExactly(name: string, rel: string)
    ensures IsPadPath(name, rel) <==>
      || (exists rest :: rel == name + "/" + ".pad/" + rest)
      || (!(name + "/" <= rel) && exists rest :: rel == ".pad/" + rest)
  {
    var folder := name + "/";
    if IsPadPath(name, rel) {
      if folder <= rel {
        var rest := rel[|folder|..][5..];
        assert rel == folder + rel[|folder|..] && rel[|folder|..] == ".pad/" + rest;
        assert rel == name + "/" + ".pad/" + rest;
      } else {
        assert rel == ".pad/" + rel[5..];
      }
    }
    if exists rest :: rel == name + "/" + ".pad/" + rest {
      var rest :| rel == name + "/" + ".pad/" + rest;
      assert rel[|folder|..] == ".pad/" + rest;
    }
  }
}
