/** Rewriting positional `?` placeholders into PostgreSQL's `$1, $2, …`. */
module Rebind {
  import opened Strconv

  /** Where a scan of a query stands: the placeholders numbered so far, and whether it is inside a literal. */
  datatype Scan = Scan(arg: nat, literal: bool) {
    function Next(c: char): Scan {
      if c == '\'' then Scan(arg, !literal)
      else if c == '?' && !literal then Scan(arg + 1, literal)
      else this
    }

    function Out(c: char): string {
      if c == '?' && !literal then "$" + Itoa(arg + 1) else [c]
    }
  }

  const START := Scan(0, false)

  function After(s: Scan, q: string): Scan
    decreases |q|
  {
    if q == [] then s else After(s.Next(q[0]), q[1..])
  }

  /** What the rest `q` of a query is rewritten to. */
  function From(s: Scan, q: string): string
    decreases |q|
  {
    if q == [] then [] else s.Out(q[0]) + From(s.Next(q[0]), q[1..])
  }

  function Rebound(q: string): string {
    From(START, q)
  }

  lemma {:induction false} NoQuestionMarks(s: Scan, q: string)
    requires '?' !in q
    ensures From(s, q) == q
    decreases |q|
  {
    if q != [] {
      assert q == [q[0]] + q[1..];
      NoQuestionMarks(s.Next(q[0]), q[1..]);
    }
  }

  lemma FromStep(s: Scan, q: string, i: nat, r: string)
    requires i < |q|
    ensures r + From(s, q[i..]) == r + s.Out(q[i]) + From(s.Next(q[i]), q[i + 1..])
  {
    assert q[i..][1..] == q[i + 1..];
    Assoc(r, s.Out(q[i]), From(s.Next(q[i]), q[i + 1..]));
  }

  lemma Assoc(a: string, b: string, c: string)
    ensures (a + b) + c == a + (b + c)
  {
  }

  /** The rewriting loop. */
  method Rebind(query: string) returns (r: string)
    ensures r == Rebound(query)
  {
    if '?' !in query {
      NoQuestionMarks(START, query);
      return query;
    }
    r := [];
    var arg, inString := 0, false;
    for i := 0 to |query|
      invariant Rebound(query) == r + From(Scan(arg, inString), query[i..])
    {
      var c := query[i];
      ghost var s, done := Scan(arg, inString), r;
      FromStep(s, query, i, r);
      if c == '\'' {
        inString := !inString;
        r := r + [c];
      } else if c == '?' && !inString {
        arg := arg + 1;
        r := r + ("$" + Itoa(arg));
      } else {
        r := r + [c];
      }
      assert r == done + s.Out(c) && Scan(arg, inString) == s.Next(c);
    }
  }

  // ---- What the scan stands for ----

  /** After the text `p` we are inside a literal: it has an odd number of quotes. */
  ghost predicate Quoted(p: string) {
    multiset(p)['\''] % 2 == 1
  }

  /** The places of the placeholders: the question marks outside literals. */
  ghost function Placeholders(q: string): set<nat> {
    set i: nat | i < |q| && q[i] == '?' && !Quoted(q[..i])
  }

  lemma {:induction false} AfterConcat(s: Scan, p: string, q: string)
    ensures After(s, p + q) == After(After(s, p), q)
    ensures From(s, p + q) == From(s, p) + From(After(s, p), q)
    decreases |p|
  {
    if p == [] {
      assert p + q == q;
    } else {
      var t, tail := s.Next(p[0]), p[1..];
      assert (p + q)[0] == p[0] && (p + q)[1..] == tail + q;
      AfterConcat(t, tail, q);
      Assoc(s.Out(p[0]), From(t, tail), From(After(t, tail), q));
    }
  }

  lemma AfterOne(s: Scan, c: char)
    ensures After(s, [c]) == s.Next(c) && From(s, [c]) == s.Out(c)
  {
    assert [c][1..] == [];
  }

  lemma QuotedStep(p: string, c: char)
    ensures Quoted(p + [c]) == (Quoted(p) != (c == '\''))
  {
    assert multiset(p + [c]) == multiset(p) + multiset{c};
  }

  lemma PlaceholdersStep(p: string, c: char)
    ensures Placeholders(p + [c]) == Placeholders(p) + if c == '?' && !Quoted(p) then {|p|} else {}
  {
    var q := p + [c];
    assert q[..|p|] == p;
    forall i: nat | i < |p| ensures q[..i] == p[..i] {
    }
  }

  lemma AfterSnoc(s: Scan, p: string, c: char)
    ensures After(s, p + [c]) == After(s, p).Next(c)
  {
    AfterConcat(s, p, [c]);
    AfterOne(After(s, p), c);
  }

  /** The scan's two variables, in terms of the text scanned. */
  lemma {:induction false} ScanExact(p: string)
    ensures After(START, p) == Scan(|Placeholders(p)|, Quoted(p))
    decreases |p|
  {
    if p == [] {
      assert Placeholders(p) == {};
    } else {
      var init, c := p[..|p| - 1], p[|p| - 1];
      assert p == init + [c];
      ScanExact(init);
      QuotedStep(init, c);
      PlaceholdersStep(init, c);
      assert |init| !in Placeholders(init);
      AfterSnoc(START, init, c);
    }
  }

  /**
    * Each character is rewritten where it stands: a placeholder becomes a dollar and its rank from the left,
    * every other character stays, literals included.
    */
  lemma EachInPlace(q: string, i: nat)
    requires i < |q|
    ensures var out := if i in Placeholders(q) then "$" + Itoa(|Placeholders(q[..i])| + 1) else [q[i]];
            Rebound(q) == Rebound(q[..i]) + (out + From(After(START, q[..i + 1]), q[i + 1..]))
  {
    var p, rest := q[..i], q[i + 1..];
    assert q == p + ([q[i]] + rest) && q[..i + 1] == p + [q[i]];
    AfterConcat(START, p, [q[i]] + rest);
    AfterConcat(After(START, p), [q[i]], rest);
    AfterConcat(START, p, [q[i]]);
    AfterOne(After(START, p), q[i]);
    ScanExact(p);
  }

  // ---- Nothing left to rewrite ----

  /** Rewriting again, from any count, changes nothing. */
  lemma {:induction false} FromTwice(s: Scan, t: Scan, q: string)
    requires s.literal == t.literal
    ensures From(t, From(s, q)) == From(s, q)
    ensures After(t, From(s, q)) == Scan(t.arg, After(s, q).literal)
    decreases |q|
  {
    if q != [] {
      var c := q[0];
      var out, rest := s.Out(c), From(s.Next(c), q[1..]);
      OutTwice(s, t, c);
      FromTwice(s.Next(c), After(t, out), q[1..]);
      AfterConcat(t, out, rest);
    }
  }

  lemma OutTwice(s: Scan, t: Scan, c: char)
    requires s.literal == t.literal
    ensures From(t, s.Out(c)) == s.Out(c)
    ensures After(t, s.Out(c)) == Scan(t.arg, s.Next(c).literal)
  {
    if c == '?' && !s.literal {
      PlainText(t, s.Out(c));
    } else {
      AfterOne(t, c);
    }
  }

  lemma {:induction false} PlainText(t: Scan, p: string)
    requires '?' !in p && '\'' !in p
    ensures From(t, p) == p && After(t, p) == t
    decreases |p|
  {
    if p != [] {
      assert p == [p[0]] + p[1..];
      PlainText(t, p[1..]);
    }
  }

  /** A rewritten query has no placeholder left, and rewriting it again changes nothing. */
  lemma Idempotent(q: string)
    ensures Placeholders(Rebound(q)) == {}
    ensures Rebound(Rebound(q)) == Rebound(q)
  {
    FromTwice(START, START, q);
    ScanExact(Rebound(q));
  }

  // ---- Reading a rewritten query back ----

  /** Turns each `$k` outside literals that carries the number next in turn back into a question mark. */
  function Unbound(s: Scan, r: string): string
    decreases |r|
  {
    if r == [] then []
    else if r[0] == '$' && !s.literal && Itoa(s.arg + 1) <= r[1..]
    then "?" + Unbound(s.Next('?'), r[1 + |Itoa(s.arg + 1)|..])
    else [r[0]] + Unbound(if r[0] == '\'' then s.Next('\'') else s, r[1..])
  }

  /** No dollar outside a literal is followed by the number the next placeholder would get. */
  ghost predicate Unambiguous(s: Scan, q: string) {
    forall i: nat | i < |q| :: PlainAt(s, q, i)
  }

  ghost predicate PlainAt(s: Scan, q: string, i: nat)
    requires i < |q|
  {
    var at := After(s, q[..i]);
    q[i] == '$' && !at.literal ==> !(Itoa(at.arg + 1) <= q[i + 1..])
  }

  lemma PlainShift(s: Scan, q: string, i: nat)
    requires i + 1 < |q|
    ensures PlainAt(s, q, i + 1) <==> PlainAt(s.Next(q[0]), q[1..], i)
  {
    var rest := q[1..];
    assert q[..i + 1][1..] == rest[..i];
    assert q[i + 1] == rest[i] && q[i + 2..] == rest[i + 1..];
  }

  lemma UnambiguousStep(s: Scan, q: string)
    requires q != []
    ensures Unambiguous(s, q) <==>
            !(q[0] == '$' && !s.literal && Itoa(s.arg + 1) <= q[1..]) && Unambiguous(s.Next(q[0]), q[1..])
  {
    var t, rest := s.Next(q[0]), q[1..];
    assert After(s, q[..0]) == s;
    assert PlainAt(s, q, 0) <==> !(q[0] == '$' && !s.literal && Itoa(s.arg + 1) <= q[1..]);
    forall i: nat | i < |rest| ensures PlainAt(s, q, i + 1) <==> PlainAt(t, rest, i) {
      PlainShift(s, q, i);
    }
    if Unambiguous(t, rest) && PlainAt(s, q, 0) {
      forall i: nat | i < |q| ensures PlainAt(s, q, i) {
        assert i > 0 ==> PlainAt(s, q, i - 1 + 1) == PlainAt(t, rest, i - 1);
      }
    }
  }

  /** Digits at the start of the rewritten text are digits at the start of the text. */
  lemma {:induction false} SameLeadingDigits(d: string, s: Scan, q: string)
    requires forall c <- d :: c in DIGITS
    ensures d <= From(s, q) <==> d <= q
    decreases |d|
  {
    if d != [] && q != [] {
      var f, g := From(s, q), From(s.Next(q[0]), q[1..]);
      assert d[0] in DIGITS;
      assert f[0] == if q[0] == '?' && !s.literal then '$' else q[0];
      if d[0] == q[0] {
        SameLeadingDigits(d[1..], s.Next(q[0]), q[1..]);
        assert f[1..] == g;
        assert d == [d[0]] + d[1..] && f == [d[0]] + g && q == [d[0]] + q[1..];
        assert d <= f <==> d[1..] <= g;
        assert d <= q <==> d[1..] <= q[1..];
      }
    }
  }

  lemma DigitsOnly(n: nat)
    ensures forall d <- Itoa(n) :: d in DIGITS
  {
  }

  lemma UnboundMark(s: Scan, g: string)
    requires !s.literal
    ensures Unbound(s, "$" + Itoa(s.arg + 1) + g) == "?" + Unbound(s.Next('?'), g)
  {
    var n := Itoa(s.arg + 1);
    var f := "$" + n + g;
    assert f[1..] == n + g && f[1 + |n|..] == g;
  }

  lemma UnboundOther(s: Scan, c: char, g: string)
    requires c != '?' || s.literal
    ensures if c == '$' && !s.literal && Itoa(s.arg + 1) <= g then Unbound(s, [c] + g) != [] && Unbound(s, [c] + g)[0] == '?'
            else Unbound(s, [c] + g) == [c] + Unbound(s.Next(c), g)
  {
    assert ([c] + g)[1..] == g;
  }

  /** Reading back a rewritten query returns it exactly when the query was unambiguous. */
  lemma {:induction false} ReadBackFrom(s: Scan, q: string)
    ensures Unbound(s, From(s, q)) == q <==> Unambiguous(s, q)
    decreases |q|
  {
    if q != [] {
      UnambiguousStep(s, q);
      ReadBackFrom(s.Next(q[0]), q[1..]);
      if q[0] == '?' && !s.literal {
        ReadBackMark(s, q);
      } else {
        ReadBackOther(s, q);
      }
    }
  }

  lemma SameTail(c: char, x: string, y: string)
    ensures [c] + x == [c] + y <==> x == y
  {
    assert ([c] + x)[1..] == x && ([c] + y)[1..] == y;
  }

  /** A placeholder is read back whatever follows it. */
  lemma ReadBackMark(s: Scan, q: string)
    requires q != [] && q[0] == '?' && !s.literal
    ensures Unbound(s, From(s, q)) == q <==> Unbound(s.Next('?'), From(s.Next('?'), q[1..])) == q[1..]
  {
    var g := From(s.Next('?'), q[1..]);
    assert From(s, q) == "$" + Itoa(s.arg + 1) + g;
    UnboundMark(s, g);
    SameTail('?', Unbound(s.Next('?'), g), q[1..]);
    assert q == [q[0]] + q[1..];
  }

  /** Another character is, unless it is a dollar that reads as a placeholder. */
  lemma ReadBackOther(s: Scan, q: string)
    requires q != [] && (q[0] != '?' || s.literal)
    ensures Unbound(s, From(s, q)) == q <==>
              !(q[0] == '$' && !s.literal && Itoa(s.arg + 1) <= q[1..])
              && Unbound(s.Next(q[0]), From(s.Next(q[0]), q[1..])) == q[1..]
  {
    var c := q[0];
    var g := From(s.Next(c), q[1..]);
    DigitsOnly(s.arg + 1);
    SameLeadingDigits(Itoa(s.arg + 1), s.Next(c), q[1..]);
    assert From(s, q) == [c] + g;
    UnboundOther(s, c, g);
    SameTail(c, Unbound(s.Next(c), g), q[1..]);
    assert q == [c] + q[1..];
  }

  /**
    * The round trip: a query is recovered from its rewritten form exactly when it is unambiguous, which every
    * query without a dollar outside literals is, even if a digit follows a placeholder.
    */
  lemma RoundTrip(q: string)
    ensures Unbound(START, Rebound(q)) == q <==> Unambiguous(START, q)
    ensures (forall i: nat | i < |q| && q[i] == '$' :: Quoted(q[..i])) ==> Unambiguous(START, q)
  {
    ReadBackFrom(START, q);
    forall i: nat | i < |q| ensures After(START, q[..i]).literal == Quoted(q[..i]) {
      ScanExact(q[..i]);
    }
  }

  /** So two different unambiguous queries never become the same statement. */
  lemma Injective(q: string, r: string)
    requires Unambiguous(START, q) && Unambiguous(START, r)
    requires Rebound(q) == Rebound(r)
    ensures q == r
  {
    RoundTrip(q);
    RoundTrip(r);
  }

  /** The condition is needed: a query may already spell `$2` and read the same as one with a placeholder. */
  lemma AmbiguousExample()
    ensures Rebound("?$2") == Rebound("??") && !Unambiguous(START, "?$2")
  {
    var q, r := "?$2", "??";
    assert q[1..] == "$2" && q[1..][1..] == "2" && q[1..][1..][1..] == [] && r[1..] == "?" && r[1..][1..] == [];
    assert Rebound(q) == "$1" + ("$" + ("2" + []));
    assert Rebound(r) == "$1" + ("$2" + []);
    RoundTrip(q);
    RoundTrip(r);
    assert Unambiguous(START, r);
  }
}
