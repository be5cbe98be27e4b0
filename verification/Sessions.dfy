/** Refresh-token rotation, with any number of callers, the periodic cleanup and revocations interleaving. */
module Sessions {
  import opened Options

  const HOUR := 3_600_000_000_000

  datatype Row = Row(user: int, expires: int, remember: bool, consumed: Option<int>)

  datatype Outcome = Invalid | Rotated | GraceReissue | Reuse

  /** Where a call stands: the statements of the rotation, in order. */
  datatype Phase =
    | Begun
    | Read(row: Row, readAt: int)
    | Unexpired(row: Row, readAt: int)
    | Known(row: Row, readAt: int)
    | Stamped(row: Row, readAt: int, stamp: int)
    | Done(outcome: Outcome, seen: Option<Row>, readAt: int, decidedAt: int)

  datatype Caller = Caller(hash: string, grace: int, phase: Phase)

  /** `writes` counts the updates of `consumed_at` per token, `winner` the call that returned Rotated for it. */
  datatype State = State(now: int, table: map<string, Row>, issued: set<string>, callers: map<nat, Caller>,
                         writes: multiset<string>, winner: map<string, nat>)

  /** A statement succeeds, fails, or takes effect with its reply lost. */
  datatype Reply = Good | Failed | Lost

  /** The statements that delete tokens: the cleanup, the two that consume one, and the three revocations. */
  datatype Deletion =
    | Stale(at: int)
    | Token(hash: string)
    | OwnSession(user: int, hash: string)
    | OtherSessions(user: int, hash: string)
    | AllSessions(user: int)
  {
    predicate Hits(h: string, row: Row) {
      match this
      case Stale(at) => row.expires < at || (row.consumed.Some? && row.consumed.value < at - HOUR)
      case Token(hash) => h == hash
      case OwnSession(user, hash) => h == hash && row.user == user
      case OtherSessions(user, hash) => h != hash && row.user == user
      case AllSessions(user) => row.user == user
    }
  }

  datatype Event =
    | Advance(ns: nat)
    | Insert(hash: string, user: int, expires: int, remember: bool)
    | Begin(c: nat, hash: string, grace: int)
    | Proceed(c: nat, reply: Reply)
    | Delete(which: Deletion)

  /** The cleanup takes exactly what has expired, or was consumed more than an hour ago. */
  lemma CleanupTakes(s: State, at: int, h: string)
    requires h in s.table
    ensures h !in Without(s, Stale(at)).table <==>
      s.table[h].expires < at || (s.table[h].consumed.Some? && s.table[h].consumed.value < at - 3_600_000_000_000)
    ensures h in Without(s, Stale(at)).table ==> Without(s, Stale(at)).table[h] == s.table[h]
  {
  }

  /** A revocation takes exactly the tokens it names, or the user's. */
  lemma RevocationTakes(s: State, h: string, hash: string, user: int)
    requires h in s.table
    ensures h !in Without(s, Token(hash)).table <==> h == hash
    ensures h !in Without(s, OwnSession(user, hash)).table <==> h == hash && s.table[h].user == user
    ensures h !in Without(s, OtherSessions(user, hash)).table <==> h != hash && s.table[h].user == user
    ensures h !in Without(s, AllSessions(user)).table <==> s.table[h].user == user
  {
  }

  const START := State(0, map[], {}, map[], multiset{}, map[])

  function Without(s: State, d: Deletion): State {
    s.(table := map h | h in s.table && !d.Hits(h, s.table[h]) :: s.table[h])
  }

  /** One event; one that cannot happen changes nothing. */
  function Next(s: State, e: Event): State {
    match e
    case Advance(ns) => s.(now := s.now + ns)
    // Tokens are random: a hash is never issued twice.
    case Insert(hash, user, expires, remember) =>
      if hash in s.issued then s
      else s.(table := s.table[hash := Row(user, expires, remember, None)], issued := s.issued + {hash})
    case Begin(c, hash, grace) =>
      if c in s.callers then s else s.(callers := s.callers[c := Caller(hash, grace, Begun)])
    case Proceed(c, reply) => if c in s.callers then Advanced(s, c, s.callers[c], reply) else s
    case Delete(which) => Without(s, which)
  }

  function At(s: State, c: nat, call: Caller, phase: Phase): State {
    s.(callers := s.callers[c := call.(phase := phase)])
  }

  /** The next statement of call `c`. */
  function Advanced(s: State, c: nat, call: Caller, reply: Reply): State {
    if call.phase.Stamped? && !reply.Failed? && call.hash in s.table && s.table[call.hash].consumed.None?
    then Consumed(s, c, call, reply.Good?)
    else At(s, c, call, Moved(s, call, reply))
  }

  /** The conditional update found the token still active. */
  function Consumed(s: State, c: nat, call: Caller, replied: bool): State
    requires call.phase.Stamped? && call.hash in s.table
  {
    var h, p := call.hash, call.phase;
    var t := s.(table := s.table[h := s.table[h].(consumed := Some(p.stamp))], writes := s.writes + multiset{h});
    if replied then At(t.(winner := t.winner[h := c]), c, call, Done(Rotated, Some(p.row), p.readAt, s.now))
    else At(t, c, call, Done(Invalid, Some(p.row), p.readAt, s.now))
  }

  /** The call's next phase, when its statement changes nothing in the table. */
  function Moved(s: State, call: Caller, reply: Reply): Phase {
    match call.phase
    case Begun =>
      if reply.Good? && call.hash in s.table then Read(s.table[call.hash], s.now) else Done(Invalid, None, s.now, s.now)
    case Read(row, readAt) =>
      if s.now > row.expires then Done(Invalid, Some(row), readAt, s.now) else Unexpired(row, readAt)
    case Unexpired(row, readAt) =>
      if reply.Good? then Known(row, readAt) else Done(Invalid, Some(row), readAt, s.now)
    case Known(row, readAt) =>
      if row.consumed.None? then Stamped(row, readAt, s.now)
      else if s.now - row.consumed.value <= call.grace then Done(GraceReissue, Some(row), readAt, s.now)
      else Done(Reuse, Some(row), readAt, s.now)
    case Stamped(row, readAt, _) =>
      if reply.Good? then Done(GraceReissue, Some(row), readAt, s.now) else Done(Invalid, Some(row), readAt, s.now)
    case Done(_, _, _, _) => call.phase
  }

  function Run(s: State, events: seq<Event>): State {
    if events == [] then s else Next(Run(s, events[..|events| - 1]), events[|events| - 1])
  }

  // ---- What every run keeps ----

  ghost predicate TableSound(s: State) {
    && (forall h | h in s.table :: h in s.issued && (s.table[h].consumed.Some? <==> s.writes[h] == 1))
    && (forall h :: s.writes[h] <= 1 && (s.writes[h] == 1 ==> h in s.issued))
    && (forall h | h in s.winner :: s.writes[h] == 1)
    && (forall h | h in s.table && s.table[h].consumed.Some? :: s.table[h].consumed.value <= s.now)
  }

  /** What call `c` read is still true of its token, as long as that exists. */
  ghost predicate ReadSound(s: State, h: string, row: Row, readAt: int) {
    && h in s.issued && readAt <= s.now
    && (row.consumed.Some? ==> s.writes[h] == 1 && row.consumed.value <= readAt)
    && (h in s.table ==> s.table[h].(consumed := row.consumed) == row)
    && (h in s.table && row.consumed.Some? ==> s.table[h] == row)
  }

  ghost predicate CallSound(s: State, c: nat, call: Caller) {
    match call.phase
    case Begun => true
    case Read(row, readAt) => ReadSound(s, call.hash, row, readAt)
    case Unexpired(row, readAt) => ReadSound(s, call.hash, row, readAt) && readAt <= row.expires
    case Known(row, readAt) => ReadSound(s, call.hash, row, readAt) && readAt <= row.expires
    case Stamped(row, readAt, stamp) =>
      ReadSound(s, call.hash, row, readAt) && readAt <= row.expires && row.consumed.None? && readAt <= stamp <= s.now
    case Done(outcome, seen, readAt, decidedAt) =>
      && readAt <= decidedAt <= s.now
      && (!outcome.Invalid? ==> seen.Some? && readAt <= seen.value.expires)
      && (seen.Some? ==> ReadSound(s, call.hash, seen.value, readAt))
      && (outcome.Rotated? ==> seen.Some? && seen.value.consumed.None? && call.hash in s.winner && s.winner[call.hash] == c)
      && (outcome.Reuse? ==> seen.Some? && seen.value.consumed.Some? && decidedAt - seen.value.consumed.value > call.grace)
      && (outcome.GraceReissue? ==> seen.Some?)
      && (outcome.GraceReissue? ==> if seen.value.consumed.Some? then decidedAt - seen.value.consumed.value <= call.grace
                                    else s.writes[call.hash] == 1 || call.hash !in s.table)
  }

  ghost predicate Sound(s: State) {
    TableSound(s) && forall c | c in s.callers :: CallSound(s, c, s.callers[c])
  }

  lemma DeletionSound(s: State, d: Deletion)
    requires Sound(s)
    ensures Sound(Without(s, d))
  {
    var t := Without(s, d);
    forall c | c in t.callers ensures CallSound(t, c, t.callers[c]) {
      assert CallSound(s, c, s.callers[c]);
    }
  }

  lemma MovedSound(s: State, c: nat, call: Caller, p: Phase)
    requires Sound(s) && CallSound(s, c, call.(phase := p))
    ensures Sound(At(s, c, call, p))
  {
    var t := At(s, c, call, p);
    forall d | d in t.callers ensures CallSound(t, d, t.callers[d]) {
      assert d != c ==> CallSound(s, d, s.callers[d]);
    }
  }

  lemma ConsumedSound(s: State, c: nat, call: Caller, replied: bool)
    requires Sound(s) && CallSound(s, c, call)
    requires call.phase.Stamped? && call.hash in s.table && s.table[call.hash].consumed.None?
    ensures Sound(Consumed(s, c, call, replied))
  {
    var t := Consumed(s, c, call, replied);
    forall d | d in t.callers ensures CallSound(t, d, t.callers[d]) {
      assert d != c ==> CallSound(s, d, s.callers[d]);
    }
  }

  lemma ProceedSound(s: State, c: nat, reply: Reply)
    requires Sound(s) && c in s.callers
    ensures Sound(Advanced(s, c, s.callers[c], reply))
  {
    var call := s.callers[c];
    assert CallSound(s, c, call);
    if call.phase.Stamped? && !reply.Failed? && call.hash in s.table && s.table[call.hash].consumed.None? {
      ConsumedSound(s, c, call, reply.Good?);
    } else {
      MovedSound(s, c, call, Moved(s, call, reply));
    }
  }

  lemma AdvanceSound(s: State, ns: nat)
    requires Sound(s)
    ensures Sound(Next(s, Advance(ns)))
  {
    forall c | c in s.callers ensures CallSound(Next(s, Advance(ns)), c, s.callers[c]) {
      assert CallSound(s, c, s.callers[c]);
    }
  }

  lemma InsertSound(s: State, hash: string, user: int, expires: int, remember: bool)
    requires Sound(s)
    ensures Sound(Next(s, Insert(hash, user, expires, remember)))
  {
    var t := Next(s, Insert(hash, user, expires, remember));
    forall c | c in s.callers ensures CallSound(t, c, s.callers[c]) {
      assert CallSound(s, c, s.callers[c]);
    }
  }

  lemma BeginSound(s: State, c: nat, hash: string, grace: int)
    requires Sound(s)
    ensures Sound(Next(s, Begin(c, hash, grace)))
  {
    var t := Next(s, Begin(c, hash, grace));
    forall x | x in t.callers ensures CallSound(t, x, t.callers[x]) {
      assert x in s.callers ==> CallSound(s, x, s.callers[x]);
    }
  }

  lemma NextSound(s: State, e: Event)
    requires Sound(s)
    ensures Sound(Next(s, e))
  {
    match e {
      case Proceed(c, reply) =>
        if c in s.callers {
          ProceedSound(s, c, reply);
        }
      case Delete(which) => DeletionSound(s, which);
      case Advance(ns) => AdvanceSound(s, ns);
      case Insert(hash, user, expires, remember) => InsertSound(s, hash, user, expires, remember);
      case Begin(c, hash, grace) => BeginSound(s, c, hash, grace);
    }
  }

  lemma {:induction false} RunSound(s: State, events: seq<Event>)
    requires Sound(s)
    ensures Sound(Run(s, events))
  {
    if events != [] {
      RunSound(s, events[..|events| - 1]);
      NextSound(Run(s, events[..|events| - 1]), events[|events| - 1]);
    }
  }

  // ---- What a run says about the calls ----

  ghost predicate Returned(s: State, c: nat, hash: string, outcome: Outcome) {
    c in s.callers && s.callers[c].hash == hash && s.callers[c].phase.Done? && s.callers[c].phase.outcome == outcome
  }

  /** The row a finished call read. */
  ghost function Seen(s: State, c: nat): Option<Row> {
    if c in s.callers && s.callers[c].phase.Done? then s.callers[c].phase.seen else None
  }

  lemma StartSound()
    ensures Sound(START)
  {
  }

  /** Whatever interleaves, a token is consumed at most once, and at most one call returns Rotated for it. */
  lemma OneRotation(events: seq<Event>, hash: string)
    ensures var s := Run(START, events);
            && s.writes[hash] <= 1
            && (forall c | Returned(s, c, hash, Rotated) :: s.writes[hash] == 1)
            && forall c, d | Returned(s, c, hash, Rotated) && Returned(s, d, hash, Rotated) :: c == d
  {
    StartSound();
    RunSound(START, events);
    var s := Run(START, events);
    forall c | Returned(s, c, hash, Rotated) ensures s.writes[hash] == 1 && s.winner[hash] == c {
      assert CallSound(s, c, s.callers[c]);
    }
  }

  /**
    * Reuse is returned only to a call that read the token as consumed already, longer than the grace before
    * it made up its mind; so never to one that read it as active.
    */
  lemma ReuseOnlyLate(events: seq<Event>, c: nat, hash: string)
    ensures var s := Run(START, events);
            Returned(s, c, hash, Reuse) ==>
              && Seen(s, c).Some? && Seen(s, c).value.consumed.Some? && s.writes[hash] == 1
              && var at := Seen(s, c).value.consumed.value; var p := s.callers[c].phase;
                 at <= p.readAt <= p.decidedAt && p.decidedAt - at > s.callers[c].grace
  {
    StartSound();
    RunSound(START, events);
    var s := Run(START, events);
    assert c in s.callers ==> CallSound(s, c, s.callers[c]);
  }

  /** Nothing but a refusal comes of a token read after it expired, or not read at all. */
  lemma ExpiredIsRefused(events: seq<Event>, c: nat, hash: string, outcome: Outcome)
    ensures var s := Run(START, events);
            Returned(s, c, hash, outcome) && !outcome.Invalid? ==>
              Seen(s, c).Some? && s.callers[c].phase.readAt <= Seen(s, c).value.expires
  {
    StartSound();
    RunSound(START, events);
    var s := Run(START, events);
    assert c in s.callers ==> CallSound(s, c, s.callers[c]);
  }

  /** A call that read the token as active and is told to reissue lost it: to another call, or to a deletion. */
  lemma GraceHasACause(events: seq<Event>, c: nat, hash: string)
    ensures var s := Run(START, events);
            Returned(s, c, hash, GraceReissue) ==>
              Seen(s, c).Some? &&
              var row, p := Seen(s, c).value, s.callers[c].phase;
              if row.consumed.Some? then p.decidedAt - row.consumed.value <= s.callers[c].grace
              else s.writes[hash] == 1 || hash !in s.table
  {
    StartSound();
    RunSound(START, events);
    var s := Run(START, events);
    assert c in s.callers ==> CallSound(s, c, s.callers[c]);
  }

  // ---- Reuse is measured at the decision, not at the read ----

  lemma {:induction false} RunConcat(s: State, es: seq<Event>, fs: seq<Event>)
    ensures Run(s, es + fs) == Run(Run(s, es), fs)
  {
    if fs == [] {
      assert es + fs == es;
    } else {
      RunConcat(s, es, fs[..|fs| - 1]);
      assert (es + fs)[..|es + fs| - 1] == es + fs[..|fs| - 1];
    }
  }

  lemma RunOne(s: State, es: seq<Event>, e: Event)
    ensures Run(s, es + [e]) == Next(Run(s, es), e)
  {
    assert (es + [e])[..|es|] == es;
  }

  /** Nothing happens but one call, whose statements all succeed. */
  predicate Undisturbed(es: seq<Event>, c: nat, hash: string, grace: int) {
    forall e <- es :: e == Begin(c, hash, grace) || e == Proceed(c, Good)
  }

  /** An undisturbed call gets in four events to know an unexpired token's row. */
  lemma KnowAtOnce(s: State, c: nat, hash: string, grace: int) returns (es: seq<Event>)
    requires c !in s.callers && hash in s.table && s.now <= s.table[hash].expires
    ensures Undisturbed(es, c, hash, grace)
    ensures Run(s, es) == s.(callers := s.callers[c := Caller(hash, grace, Known(s.table[hash], s.now))])
  {
    var row, go := s.table[hash], Proceed(c, Good);
    es := [Begin(c, hash, grace)];
    RunOne(s, [], es[0]);
    var t := s.(callers := s.callers[c := Caller(hash, grace, Begun)]);
    assert Run(s, es) == t;
    RunOne(s, es, go);
    t := At(s, c, Caller(hash, grace, Begun), Read(row, s.now));
    es := es + [go];
    assert Run(s, es) == t;
    RunOne(s, es, go);
    t := At(s, c, Caller(hash, grace, Begun), Unexpired(row, s.now));
    es := es + [go];
    assert Run(s, es) == t;
    RunOne(s, es, go);
    es := es + [go];
  }

  /** One call consumes a fresh token on the spot. */
  lemma ConsumeAtOnce(s: State, c: nat, hash: string, grace: int) returns (es: seq<Event>)
    requires c !in s.callers && hash in s.table && s.table[hash].consumed.None? && s.now <= s.table[hash].expires
    ensures Undisturbed(es, c, hash, grace)
    ensures var t := Run(s, es);
            && t.now == s.now && t.callers.Keys == s.callers.Keys + {c}
            && Returned(t, c, hash, Rotated) && t.writes[hash] == s.writes[hash] + 1
            && t.table == s.table[hash := s.table[hash].(consumed := Some(s.now))]
  {
    var go := Proceed(c, Good);
    es := KnowAtOnce(s, c, hash, grace);
    var t := Run(s, es);
    RunOne(s, es, go);
    RunOne(s, es + [go], go);
    assert Next(t, go) == At(t, c, t.callers[c], Stamped(s.table[hash], s.now, s.now));
    es := es + [go] + [go];
  }

  /** Left alone, a call with a token that is active and has not expired is rotated. */
  lemma FreshRotates(s: State, c: nat, hash: string, grace: int) returns (es: seq<Event>)
    requires c !in s.callers && hash in s.table && s.table[hash].consumed.None? && s.now <= s.table[hash].expires
    ensures Undisturbed(es, c, hash, grace)
    ensures var t := Run(s, es);
            && Returned(t, c, hash, Rotated) && t.writes[hash] == s.writes[hash] + 1
            && t.table == s.table[hash := s.table[hash].(consumed := Some(s.now))]
  {
    es := ConsumeAtOnce(s, c, hash, grace);
  }

  /** And with one that has, refused: in whatever state the table is. */
  lemma ExpiredAtOnce(s: State, c: nat, hash: string, grace: int) returns (es: seq<Event>)
    requires c !in s.callers && hash in s.table && s.now > s.table[hash].expires
    ensures Undisturbed(es, c, hash, grace)
    ensures var t := Run(s, es); Returned(t, c, hash, Invalid) && t.table == s.table
  {
    var go, row := Proceed(c, Good), s.table[hash];
    es := [Begin(c, hash, grace)];
    RunOne(s, [], es[0]);
    var t := s.(callers := s.callers[c := Caller(hash, grace, Begun)]);
    assert Run(s, es) == t;
    RunOne(s, es, go);
    t := At(s, c, Caller(hash, grace, Begun), Read(row, s.now));
    es := es + [go];
    assert Run(s, es) == t;
    RunOne(s, es, go);
    es := es + [go];
  }

  /** A call reads a token consumed just now when the grace has passed exactly, and judges it a moment later. */
  lemma JudgeLate(s: State, c: nat, hash: string, grace: nat) returns (es: seq<Event>)
    requires c !in s.callers && hash in s.table && s.table[hash].consumed == Some(s.now)
    requires s.now + grace <= s.table[hash].expires
    ensures var t := Run(s, es);
            c in t.callers
            && t.callers[c] == Caller(hash, grace, Done(Reuse, Some(s.table[hash]), s.now + grace, s.now + grace + 1))
  {
    var s1 := Next(s, Advance(grace));
    var know := KnowAtOnce(s1, c, hash, grace);
    es := [Advance(grace)] + know;
    assert Run(s, es) == Run(s1, know) by {
      RunOne(s, [], Advance(grace));
      RunConcat(s, [Advance(grace)], know);
    }
    JudgeKnown(Run(s, es), c, s.table[hash]);
    RunConcat(s, es, [Advance(1), Proceed(c, Good)]);
    es := es + [Advance(1), Proceed(c, Good)];
  }

  lemma JudgeKnown(s: State, c: nat, row: Row)
    requires c in s.callers && s.callers[c].phase == Known(row, s.now)
    requires row.consumed.Some? && s.now - row.consumed.value == s.callers[c].grace
    ensures var t := Run(s, [Advance(1), Proceed(c, Good)]);
            c in t.callers && t.callers[c] == s.callers[c].(phase := Done(Reuse, Some(row), s.now, s.now + 1))
  {
    RunOne(s, [], Advance(1));
    RunOne(s, [Advance(1)], Proceed(c, Good));
    assert [Advance(1)] + [Proceed(c, Good)] == [Advance(1), Proceed(c, Good)];
  }

  /** So a token read exactly at the end of the grace can still be judged reuse: the bound is on the decision. */
  lemma ReadInGraceIsReuse(grace: nat) returns (es: seq<Event>, row: Row)
    ensures row.consumed == Some(0)
    ensures var s := Run(START, es);
            2 in s.callers && s.callers[2] == Caller("t", grace, Done(Reuse, Some(row), grace, grace + 1))
  {
    var insert := Insert("t", 1, grace, false);
    var s1 := Next(START, insert);
    assert Run(START, [insert]) == s1 by { RunOne(START, [], insert); }
    var es1 := ConsumeAtOnce(s1, 1, "t", grace);
    var s2 := Run(s1, es1);
    assert Run(START, [insert] + es1) == s2 by { RunConcat(START, [insert], es1); }
    row := s2.table["t"];
    var es2 := JudgeLate(s2, 2, "t", grace);
    es := [insert] + es1 + es2;
    RunConcat(START, [insert] + es1, es2);
  }

  /**
    * Whatever statement deletes the token between a call's last look at it and its update, the call is told to
    * reissue although nobody ever consumed the token.
    */
  lemma DeletedUnderfoot(hash: string, user: int, expires: nat, remember: bool, grace: int, which: Deletion)
    returns (es: seq<Event>)
    requires which.Hits(hash, Row(user, expires, remember, None))
    ensures var s := Run(START, es);
            Returned(s, 1, hash, GraceReissue) && s.writes[hash] == 0 && hash !in s.table
  {
    var insert, go, row := Insert(hash, user, expires, remember), Proceed(1, Good), Row(user, expires, remember, None);
    var s1 := Next(START, insert);
    assert Run(START, [insert]) == s1 by { RunOne(START, [], insert); }
    var know := KnowAtOnce(s1, 1, hash, grace);
    var s2 := Run(s1, know);
    RunConcat(START, [insert], know);
    es := [insert] + know;
    RunOne(START, es, go);
    var s3 := At(s2, 1, Caller(hash, grace, Known(row, 0)), Stamped(row, 0, 0));
    es := es + [go];
    assert Run(START, es) == s3;
    RunOne(START, es, Delete(which));
    es := es + [Delete(which)];
    RunOne(START, es, go);
    es := es + [go];
  }

  // ---- The rotation itself ----

  /** Events that are not about call `c`. */
  predicate Foreign(es: seq<Event>, c: nat) {
    forall e <- es :: (e.Begin? || e.Proceed?) ==> e.c != c
  }

  lemma {:induction false} ForeignKeeps(s: State, es: seq<Event>, c: nat)
    requires Foreign(es, c) && c in s.callers
    ensures c in Run(s, es).callers && Run(s, es).callers[c] == s.callers[c]
  {
    if es != [] {
      assert es[|es| - 1] in es;
      ForeignKeeps(s, es[..|es| - 1], c);
    }
  }

  class TokenStore {
    /** The token table, the clock and every call in progress. */
    var s: State

    /** Between two statements of call `c` anything may happen, except to the call itself. */
    method Others(c: nat, ghost s0: State, trace: seq<Event>) returns (longer: seq<Event>)
      requires c in s.callers && s == Run(s0, trace)
      modifies this
      ensures s == Run(s0, longer)
      ensures c in s.callers && s.callers[c] == old(s.callers[c])
    {
      var es: seq<Event> := *;
      if !Foreign(es, c) {
        es := [];
      }
      ForeignKeeps(s, es, c);
      RunConcat(s0, trace, es);
      s := Run(s, es);
      longer := trace + es;
    }

    /** Records that call `c`, having had this reply, has got to `phase`. */
    method Reach(c: nat, reply: Reply, phase: Phase, ghost s0: State, trace: seq<Event>) returns (longer: seq<Event>)
      requires c in s.callers && s == Run(s0, trace)
      requires !s.callers[c].phase.Stamped? && phase == Moved(s, s.callers[c], reply)
      modifies this
      ensures s == Run(s0, longer) && s == old(s).(callers := s.callers)
      ensures c in s.callers && s.callers[c] == old(s.callers[c]).(phase := phase)
    {
      RunOne(s0, trace, Proceed(c, reply));
      s := At(s, c, s.callers[c], phase);
      longer := trace + [Proceed(c, reply)];
    }

    /** The conditional update; `n` is the number of rows it changed. */
    method MarkConsumed(hash: string, stamp: int) returns (n: nat)
      modifies this
      ensures n == if hash in old(s.table) && old(s.table)[hash].consumed.None? then 1 else 0
      ensures s == if n == 0 then old(s)
                   else old(s).(table := old(s.table)[hash := old(s.table)[hash].(consumed := Some(stamp))],
                                writes := old(s.writes) + multiset{hash})
    {
      n := 0;
      if hash in s.table && s.table[hash].consumed.None? {
        s := s.(table := s.table[hash := s.table[hash].(consumed := Some(stamp))], writes := s.writes + multiset{hash});
        n := 1;
      }
    }

    /** The rotation as written: every path through it is a run of the system, and returns what the run says. */
    method RotateRefreshToken(c: nat, hash: string, grace: int) returns (outcome: Outcome, trace: seq<Event>)
      requires c !in s.callers
      modifies this
      ensures s == Run(old(s), trace)
      ensures Returned(s, c, hash, outcome) && s.callers[c].grace == grace
    {
      ghost var s0 := s;
      s := s.(callers := s.callers[c := Caller(hash, grace, Begun)]);
      trace := [Begin(c, hash, grace)];
      RunOne(s0, [], trace[0]);
      trace := Others(c, s0, trace);
      var reply: Reply := *;
      if !reply.Good? || hash !in s.table {
        trace := Reach(c, reply, Done(Invalid, None, s.now, s.now), s0, trace);
        return Invalid, trace;
      }
      var row, readAt := s.table[hash], s.now;
      trace := Reach(c, Good, Read(row, readAt), s0, trace);
      trace := Others(c, s0, trace);
      if s.now > row.expires {
        trace := Reach(c, Good, Done(Invalid, Some(row), readAt, s.now), s0, trace);
        return Invalid, trace;
      }
      trace := Reach(c, Good, Unexpired(row, readAt), s0, trace);
      trace := Others(c, s0, trace);
      outcome, trace := Judge(c, row, readAt, s0, trace);
    }

    /** The rotation from the point where the token is known to be unexpired. */
    method Judge(c: nat, row: Row, readAt: int, ghost s0: State, trace0: seq<Event>)
      returns (outcome: Outcome, trace: seq<Event>)
      requires c in s.callers && s == Run(s0, trace0) && s.callers[c].phase == Unexpired(row, readAt)
      modifies this
      ensures s == Run(s0, trace)
      ensures Returned(s, c, old(s.callers[c].hash), outcome) && s.callers[c].grace == old(s.callers[c].grace)
    {
      trace := trace0;
      var grace := s.callers[c].grace;
      var reply: Reply := *;
      if !reply.Good? {
        trace := Reach(c, reply, Done(Invalid, Some(row), readAt, s.now), s0, trace);
        return Invalid, trace;
      }
      trace := Reach(c, Good, Known(row, readAt), s0, trace);
      trace := Others(c, s0, trace);
      if row.consumed.Some? {
        outcome := if s.now - row.consumed.value <= grace then GraceReissue else Reuse;
        trace := Reach(c, Good, Done(outcome, Some(row), readAt, s.now), s0, trace);
        return;
      }
      var stamp := s.now;
      trace := Reach(c, Good, Stamped(row, readAt, stamp), s0, trace);
      trace := Others(c, s0, trace);
      outcome, trace := Consume(c, row, readAt, stamp, s0, trace);
    }

    /** The end of the rotation: the update, and what its reply means. */
    method Consume(c: nat, row: Row, readAt: int, stamp: int, ghost s0: State, trace: seq<Event>)
      returns (outcome: Outcome, longer: seq<Event>)
      requires c in s.callers && s == Run(s0, trace) && s.callers[c].phase == Stamped(row, readAt, stamp)
      modifies this
      ensures s == Run(s0, longer)
      ensures Returned(s, c, old(s.callers[c].hash), outcome) && s.callers[c].grace == old(s.callers[c].grace)
    {
      var call := s.callers[c];
      var reply: Reply := *;
      longer := trace + [Proceed(c, reply)];
      RunOne(s0, trace, Proceed(c, reply));
      var n := 0;
      if !reply.Failed? {
        n := MarkConsumed(call.hash, stamp);
      }
      if !reply.Good? {
        outcome := Invalid;
      } else if n == 1 {
        outcome := Rotated;
        s := s.(winner := s.winner[call.hash := c]);
      } else {
        outcome := GraceReissue;
      }
      s := At(s, c, call, Done(outcome, Some(row), readAt, s.now));
    }
  }
}
