/** When the names of files on the move meet. */
module MoveNames {
  import opened Paths
  import opened FileMove

  predicate EndsWith(s: string, suffix: string) {
    |suffix| <= |s| && s[|s| - |suffix|..] == suffix
  }

  /** Not the name of anything unfinished. */
  predicate Plain(p: Path) {
    p != [] && !EndsWith(p[|p| - 1], PART) && !EndsWith(p[|p| - 1], PARTIAL)
  }

  predicate Below(dir: Path, p: Path) {
    dir <= p && |dir| < |p|
  }

  predicate Unrelated(a: Path, b: Path) {
    !(a <= b) && !(b <= a)
  }

  lemma SuffixTells(p: Path, q: Path, s: string)
    requires p != [] && q != [] && WithSuffix(p, s) == WithSuffix(q, s)
    ensures p == q
  {
    var x, y := p[|p| - 1], q[|q| - 1];
    assert WithSuffix(p, s)[|p| - 1] == x + s && WithSuffix(q, s)[|p| - 1] == y + s;
    assert x == (x + s)[..|x + s| - |s|] && y == (y + s)[..|y + s| - |s|];
    assert p[..|p| - 1] == WithSuffix(p, s)[..|p| - 1] == WithSuffix(q, s)[..|p| - 1] == q[..|q| - 1];
    assert p == p[..|p| - 1] + [x] && q == q[..|q| - 1] + [y];
  }

  lemma SuffixDiffers(p: Path, s: string)
    requires s != ""
    ensures WithSuffix(p, s) != p
  {
    assert p != [] ==> WithSuffix(p, s)[|p| - 1] == p[|p| - 1] + s;
  }

  lemma SuffixShows(p: Path, q: Path, s: string)
    requires p != [] && q != [] && !EndsWith(q[|q| - 1], s)
    ensures WithSuffix(p, s) != q
  {
    var x := p[|p| - 1] + s;
    assert EndsWith(x, s) && WithSuffix(p, s)[|p| - 1] == x;
  }

  lemma SuffixesDiffer(p: Path, q: Path)
    requires p != [] && q != []
    ensures WithSuffix(p, PART) != WithSuffix(q, PARTIAL)
  {
    var x, y := p[|p| - 1] + PART, q[|q| - 1] + PARTIAL;
    assert WithSuffix(p, PART)[|p| - 1] == x && WithSuffix(q, PARTIAL)[|q| - 1] == y;
    assert x[|x| - 1] == 't' && y[|y| - 1] == 'l';
  }

  lemma PrefixesRelated(a: Path, b: Path, p: Path)
    requires a <= p && b <= p
    ensures a <= b || b <= a
  {
    assert a == p[..|a|] && b == p[..|b|];
  }

  lemma SuffixBelow(dir: Path, p: Path, s: string)
    requires Below(dir, p)
    ensures dir <= WithSuffix(p, s)
  {
  }

  /** Below unrelated directories no names meet, finished or not. */
  lemma OutsideApart(a: Path, b: Path, x: Path, q: Path)
    requires Unrelated(a, b) && a <= x && Below(b, q)
    ensures x != q && x != WithSuffix(q, PART) && x != WithSuffix(q, PARTIAL)
  {
    SuffixBelow(b, q, PART);
    SuffixBelow(b, q, PARTIAL);
    if b <= x {
      PrefixesRelated(a, b, x);
    }
  }

  lemma AcrossApart(a: Path, b: Path, p: Path, q: Path)
    requires Unrelated(a, b) && Below(a, p) && Below(b, q)
    ensures {p, WithSuffix(p, PART)} !! {q, WithSuffix(q, PART), WithSuffix(q, PARTIAL)}
  {
    SuffixBelow(a, p, PART);
    OutsideApart(a, b, p, q);
    OutsideApart(a, b, WithSuffix(p, PART), q);
  }

  /** A name differs from itself with a suffix, and two suffixes make different names. */
  lemma OwnNamesDiffer(n: Names)
    requires n.src != [] && n.dst != [] && {n.src, n.Unfinished()} !! {n.dst, n.Scratch(), n.Arriving()}
    ensures n.Distinct()
  {
    SuffixesDiffer(n.dst, n.dst);
    assert n.src[|n.src| - 1] != n.Unfinished()[|n.src| - 1];
    assert n.dst[|n.dst| - 1] != n.Scratch()[|n.dst| - 1] && n.dst[|n.dst| - 1] != n.Arriving()[|n.dst| - 1];
    assert |{n.src, n.Unfinished()}| == 2 && |{n.dst, n.Scratch(), n.Arriving()}| == 3;
    assert n.All() == {n.src, n.Unfinished()} + {n.dst, n.Scratch(), n.Arriving()};
  }

  /** Below one directory, the names of different plain files do not meet. */
  lemma BesideApart(p: Path, q: Path)
    requires Plain(p) && Plain(q)
    ensures p != WithSuffix(q, PART) && p != WithSuffix(q, PARTIAL)
    ensures p != q ==> WithSuffix(p, PART) != WithSuffix(q, PART) && WithSuffix(p, PARTIAL) != WithSuffix(q, PARTIAL)
    ensures WithSuffix(p, PART) != WithSuffix(q, PARTIAL)
  {
    SuffixShows(q, p, PART);
    SuffixShows(q, p, PARTIAL);
    SuffixesDiffer(p, q);
    if WithSuffix(p, PART) == WithSuffix(q, PART) {
      SuffixTells(p, q, PART);
    }
    if WithSuffix(p, PARTIAL) == WithSuffix(q, PARTIAL) {
      SuffixTells(p, q, PARTIAL);
    }
  }

  lemma NamesDistinct(a: Path, b: Path, m: Names)
    requires Unrelated(a, b) && Below(a, m.src) && Below(b, m.dst) && Plain(m.src) && Plain(m.dst)
    ensures m.Distinct()
  {
    AcrossApart(a, b, m.src, m.dst);
    BesideApart(m.src, m.src);
    BesideApart(m.dst, m.dst);
    assert {m.src, m.Unfinished()} !! {m.dst, m.Scratch(), m.Arriving()};
    assert m.All() == {m.src, m.Unfinished()} + {m.dst, m.Scratch(), m.Arriving()};
  }

  /** The names of two files whose sources differ, and whose destinations differ, meet nowhere. */
  lemma NamesApart(a: Path, b: Path, m: Names, n: Names)
    requires Unrelated(a, b) && Below(a, m.src) && Below(b, m.dst) && Below(a, n.src) && Below(b, n.dst)
    requires Plain(m.src) && Plain(m.dst) && Plain(n.src) && Plain(n.dst)
    requires m.src != n.src && m.dst != n.dst
    ensures m.All() !! n.All()
  {
    AcrossApart(a, b, m.src, n.dst);
    AcrossApart(a, b, n.src, m.dst);
    BesideApart(m.src, n.src);
    BesideApart(n.src, m.src);
    BesideApart(m.dst, n.dst);
    BesideApart(n.dst, m.dst);
    assert {m.src, m.Unfinished()} !! {n.src, n.Unfinished()};
    assert {m.dst, m.Scratch(), m.Arriving()} !! {n.dst, n.Scratch(), n.Arriving()};
    assert m.All() == {m.src, m.Unfinished()} + {m.dst, m.Scratch(), m.Arriving()};
    assert n.All() == {n.src, n.Unfinished()} + {n.dst, n.Scratch(), n.Arriving()};
  }
}
