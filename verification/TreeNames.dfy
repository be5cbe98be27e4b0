/** What a torrent's own paths make of its move. */
module TreeNames {
  import opened Paths
  import opened FileMove
  import opened MoveNames
  import opened TreeSteps
  import opened TreeMove

  /** Every file's names lie below the cache and below the destination, which do not contain each other. */
  ghost predicate Housed(t: Tree, es: seq<Entry>) {
    && Unrelated(t.dataDir, t.destDir)
    && forall i | Moves(es, i) :: Below(t.dataDir, es[i].names.src) && Below(t.destDir, es[i].names.dst)
  }

  /**
    * The move's files are kept apart when the cache and the destination are unrelated directories, no two files
    * share a place in either, and no file is called like an unfinished one.
    */
  lemma SeparateWhen(t: Tree, es: seq<Entry>)
    requires Housed(t, es)
    requires forall i | Moves(es, i) :: Plain(es[i].names.src) && Plain(es[i].names.dst) && SizeTells(es[i].data, es[i].was)
    requires forall i, j | Moves(es, i) && Moves(es, j) && i != j ::
      es[i].names.src != es[j].names.src && es[i].names.dst != es[j].names.dst
    ensures Separate(es)
  {
    forall i | Moves(es, i) ensures es[i].names.Distinct() {
      NamesDistinct(t.dataDir, t.destDir, es[i].names);
    }
    forall i, j | Moves(es, i) && Moves(es, j) && i != j ensures es[i].names.All() !! es[j].names.All() {
      NamesApart(t.dataDir, t.destDir, es[i].names, es[j].names);
    }
  }

  /** Whatever the files are called, nothing else is needed for a list to be judged by its order. */
  lemma ProperWhen(t: Tree, es: seq<Entry>)
    requires Housed(t, es)
    requires forall i, j | Moves(es, i) && Moves(es, j) && i != j :: es[i].names.src != es[j].names.src
    ensures Proper(es) && Named(es)
  {
    forall i, j, p | Moves(es, i) && Moves(es, j) && CacheName(es[i].names, p) ensures !DestName(es[j].names, p) {
      AcrossApart(t.dataDir, t.destDir, es[i].names.src, es[j].names.dst);
      assert p in {es[i].names.src, es[i].names.Unfinished()};
    }
    forall i | Moves(es, i) ensures es[i].names.Distinct() {
      AcrossApart(t.dataDir, t.destDir, es[i].names.src, es[i].names.dst);
      OwnNamesDiffer(es[i].names);
    }
  }

  // ---- Paths that differ by a suffix ----

  lemma AppendToLast(x: seq<string>, s: string, c: char)
    requires x != [] && c != '/'
    ensures AddChar(x[..|x| - 1] + [x[|x| - 1] + s], c) == x[..|x| - 1] + [x[|x| - 1] + (s + [c])]
  {
    var y := x[..|x| - 1] + [x[|x| - 1] + s];
    assert y[..|y| - 1] == x[..|x| - 1];
    assert x[|x| - 1] + s + [c] == x[|x| - 1] + (s + [c]);
  }

  lemma AppendNothing(x: seq<string>)
    requires x != []
    ensures x == x[..|x| - 1] + [x[|x| - 1] + ""]
  {
    assert x[|x| - 1] + "" == x[|x| - 1];
  }

  lemma {:induction false} SplitAppend(a: string, s: string)
    requires '/' !in s
    ensures Split(a + s) == Split(a)[..|Split(a)| - 1] + [Split(a)[|Split(a)| - 1] + s]
  {
    if s == "" {
      AppendNothing(Split(a));
      assert a + s == a;
    } else {
      var init, c := s[..|s| - 1], s[|s| - 1];
      assert s == init + [c];
      SplitAppend(a, init);
      SplitAppendOne(a, init, c, Split(a));
    }
  }

  lemma SplitAppendOne(a: string, init: string, c: char, x: seq<string>)
    requires c != '/' && x != [] && Split(a + init) == x[..|x| - 1] + [x[|x| - 1] + init]
    ensures Split(a + (init + [c])) == x[..|x| - 1] + [x[|x| - 1] + (init + [c])]
  {
    assert a + (init + [c]) == (a + init) + [c];
    SplitOne(a + init, c);
    AppendToLast(x, init, c);
  }

  lemma SuffixJoin(dir: Path, rel: string, s: string)
    requires '/' !in s && |s| > 2 && EndsInName(rel)
    ensures Join(dir, rel + s) == WithSuffix(Join(dir, rel), s)
  {
    SplitAppend(rel, s);
    var x := Split(rel);
    assert Split(rel + s)[..|x| - 1] == x[..|x| - 1];
    assert Join(dir, rel) == Follow(dir, x[..|x| - 1]) + [x[|x| - 1]];
    assert |x[|x| - 1] + s| > 2;
  }

  lemma SuffixTrim(rel: string, name: string, s: string)
    requires '/' !in s
    ensures TrimPrefix(rel + s, name + "/") == TrimPrefix(rel, name + "/") + s
  {
    var p := name + "/";
    assert p[|p| - 1] == '/';
    if p <= rel + s {
      SlashBefore(rel, s, p);
      assert rel == (rel + s)[..|rel|] && p <= rel;
      assert (rel + s)[|p|..] == rel[|p|..] + s;
    }
  }

  lemma SlashBefore(rel: string, s: string, p: string)
    requires '/' !in s && p != "" && p[|p| - 1] == '/' && p <= rel + s
    ensures |p| <= |rel|
  {
    assert forall k | |rel| <= k < |rel + s| :: (rel + s)[k] in s;
  }

  /** A torrent with a file `x` and after it a file `x.part` is not orderly. */
  lemma PartListed(t: Tree, es: seq<Entry>, i: nat, j: nat, same: bool)
    requires t.Lists(es) && Moves(es, i) && Moves(es, j) && i < j && Reached(es, i)
    requires t.rels[j] == t.rels[i] + ".part" && EndsInName(t.rels[i])
    ensures !Orderly(es, same)
  {
    assert t.Describes(es[i], i) && t.Describes(es[j], j);
    SuffixJoin(t.dataDir, t.rels[i], PART);
    assert Shadowed(es, i);
  }

  /** Nor, moved between devices, is one with a file `x.partial` and after it a file `x`. */
  lemma PartialListed(t: Tree, es: seq<Entry>, i: nat, j: nat)
    requires t.Lists(es) && Moves(es, i) && Moves(es, j) && i < j && Reached(es, j)
    requires t.rels[i] == t.rels[j] + ".partial" && EndsInName(TrimPrefix(t.rels[j], t.name + "/"))
    ensures !Orderly(es, false)
  {
    assert t.Describes(es[i], i) && t.Describes(es[j], j);
    SuffixTrim(t.rels[j], t.name, PARTIAL);
    SuffixJoin(t.destDir, TrimPrefix(t.rels[j], t.name + "/"), PARTIAL);
    assert es[i].names.dst == es[j].names.Scratch();
    assert !Clear(es, j, false);
  }

  /** Every file moved ends inside the destination directory, whatever the torrent calls it. */
  lemma MovesInside(t: Tree, es: seq<Entry>, i: nat)
    requires t.Lists(es) && Moves(es, i) && Clean(t.destDir)
    ensures t.destDir <= es[i].names.dst && Clean(es[i].names.dst)
  {
    assert t.Describes(es[i], i);
    DestContained(t.destDir, t.name, t.rels[i]);
  }
}
