/** Initialising, removing and ticking interleaved: when a deleted download can come back into the tracked set. */
module InitProtocol {
  // ---- The worker's maps ----

  /** The torrents of the tracked downloads and of those being initialised, and the ids deleted under an init. */
  datatype Memory = Memory(tracked: map<int, string>, pending: map<int, string>, removed: set<int>)

  function WithStarted(m: Memory, id: int, hash: string): Memory {
    m.(pending := m.pending[id := hash])
  }

  predicate MayPromote(m: Memory, id: int) {
    id in m.pending && id !in m.removed
  }

  function WithPromoted(m: Memory, id: int, hash: string): Memory {
    if MayPromote(m, id) then m.(tracked := m.tracked[id := hash]) else m
  }

  /** What the end of an init clears, whichever init of the id it is. */
  function WithExited(m: Memory, id: int): Memory {
    m.(pending := m.pending - {id}, removed := m.removed - {id})
  }

  function WithRemoved(m: Memory, id: int): Memory {
    Memory(m.tracked - {id}, m.pending - {id}, m.removed + {id})
  }

  function WithOnly(m: Memory, wanted: set<int>): Memory {
    m.(tracked := map id | id in m.tracked && id in wanted :: m.tracked[id],
       pending := map id | id in m.pending && id in wanted :: m.pending[id])
  }

  // ---- The protocol ----

  /** A downloading row: its torrent, and whether it is for the whole torrent or for one file. */
  datatype Row = Row(hash: string, whole: bool)

  datatype Phase = Resolving | Exiting

  datatype Init = Init(id: int, hash: string, phase: Phase)

  /** What the tick has decided to do next, outside the lock. */
  datatype Work = NoWork | WillPrune(id: int, hash: string, start: bool) | WillStart(id: int, hash: string)

  datatype Tick =
    | Idle
    | Listed(rows: map<int, Row>)
    | Reconciling(todo: map<int, Row>, work: Work)

  /**
    * `active` holds the downloading rows; `promoted` the inits that inserted their id into the tracked set;
    * `listed` the rows of the last tick that untracked.
    */
  datatype State = State(active: map<int, Row>, deleted: set<int>, memory: Memory, inits: map<nat, Init>, next: nat,
                         tick: Tick, promoted: set<nat>, listed: set<int>)

  datatype Event =
    | RowStarts(id: int, row: Row)
    | RowStops(id: int)
    | RowDeleted(id: int)
    | Remove(id: int)
    | TickLists
    | TickUntracks
    | TickDecides(id: int, dead: bool)
    | TickActs
    | TickEnds
    | InitPromotes(k: nat)
    | InitBails(k: nat)
    | InitExits(k: nat)
    | Forget(id: int, tracked: bool, pending: bool)

  /** One critical section; one that is not due changes nothing. */
  function Next(s: State, e: Event): State {
    match e
    // Row ids are never reused.
    case RowStarts(id, row) => if id in s.deleted then s else s.(active := s.active[id := row])
    case RowStops(id) => s.(active := s.active - {id})
    case RowDeleted(id) => s.(active := s.active - {id}, deleted := s.deleted + {id})
    // The row is deleted before the worker is told.
    case Remove(id) => if id in s.deleted then s.(memory := WithRemoved(s.memory, id)) else s
    case TickLists => if s.tick.Idle? then s.(tick := Listed(s.active)) else s
    case TickUntracks =>
      if s.tick.Listed?
      then s.(memory := WithOnly(s.memory, s.tick.rows.Keys), tick := Reconciling(s.tick.rows, NoWork),
              listed := s.tick.rows.Keys)
      else s
    case TickDecides(id, dead) =>
      if s.tick.Reconciling? && s.tick.work.NoWork? && id in s.tick.todo
      then s.(tick := Reconciling(s.tick.todo - {id}, Decided(s.memory, id, s.tick.todo[id], dead))) else s
    case TickActs => if s.tick.Reconciling? then Acted(s, s.tick.todo, s.tick.work) else s
    case TickEnds => if s.tick.Reconciling? && s.tick.todo == map[] && s.tick.work.NoWork? then s.(tick := Idle) else s
    case InitPromotes(k) => if k in s.inits && s.inits[k].phase.Resolving? then Promoted(s, k, s.inits[k]) else s
    case InitBails(k) => if k in s.inits then s.(inits := s.inits[k := s.inits[k].(phase := Exiting)]) else s
    case InitExits(k) =>
      if k in s.inits && s.inits[k].phase.Exiting?
      then s.(memory := WithExited(s.memory, s.inits[k].id), inits := s.inits - {k}) else s
    // Preemption, rotation, completion and stalls untrack too.
    case Forget(id, tracked, pending) =>
      s.(memory := s.memory.(tracked := if tracked then s.memory.tracked - {id} else s.memory.tracked,
                             pending := if pending then s.memory.pending - {id} else s.memory.pending))
  }

  /**
    * Reconciling one row: a live torrent is sampled, a dead one untracked, a row with neither is initialised.
    * After a dead torrent a whole-torrent row waits for a pending init; a single-file row starts another.
    */
  function Decided(m: Memory, id: int, row: Row, dead: bool): Work {
    if id in m.tracked then (if dead then WillPrune(id, row.hash, !row.whole || id !in m.pending) else NoWork)
    else if id in m.pending then NoWork
    else WillStart(id, row.hash)
  }

  function Acted(s: State, todo: map<int, Row>, work: Work): State {
    match work
    case NoWork => s
    case WillPrune(id, hash, start) =>
      s.(memory := s.memory.(tracked := s.memory.tracked - {id}),
         tick := Reconciling(todo, if start then WillStart(id, hash) else NoWork))
    case WillStart(id, hash) =>
      s.(memory := WithStarted(s.memory, id, hash), inits := s.inits[s.next := Init(id, hash, Resolving)], next := s.next + 1,
         tick := Reconciling(todo, NoWork))
  }

  function Promoted(s: State, k: nat, i: Init): State
    requires k in s.inits
  {
    s.(memory := WithPromoted(s.memory, i.id, i.hash), inits := s.inits[k := i.(phase := Exiting)],
       promoted := if MayPromote(s.memory, i.id) then s.promoted + {k} else s.promoted)
  }

  function Run(s: State, es: seq<Event>): State {
    if es == [] then s else Next(Run(s, es[..|es| - 1]), es[|es| - 1])
  }

  const START := State(map[], {}, Memory(map[], map[], {}), map[], 0, Idle, {}, {})

  // ---- What every run keeps ----

  ghost predicate Sound(s: State) {
    && s.active.Keys !! s.deleted
    && (forall k | k in s.inits :: k < s.next)
    && (forall k <- s.promoted :: k < s.next)
    && (s.tick.Reconciling? && !s.tick.work.NoWork? ==> s.tick.work.id !in s.tick.todo)
  }

  lemma NextSound(s: State, e: Event)
    requires Sound(s)
    ensures Sound(Next(s, e))
  {
  }

  lemma {:induction false} RunSound(s: State, es: seq<Event>)
    requires Sound(s)
    ensures Sound(Run(s, es))
  {
    if es != [] {
      RunSound(s, es[..|es| - 1]);
      NextSound(Run(s, es[..|es| - 1]), es[|es| - 1]);
    }
  }

  /** The tick in progress may still start an init of `x`. */
  predicate CanStart(s: State, x: int) {
    match s.tick
    case Idle => false
    case Listed(rows) => x in rows
    case Reconciling(todo, work) => x in todo || (work.WillStart? && work.id == x) || (work.WillPrune? && work.start && work.id == x)
  }

  /** The inits of `x` that have not exited. */
  ghost function Flights(s: State, x: int): set<nat> {
    set k | k in s.inits && s.inits[k].id == x
  }

  /** What is tracked or pending, and what the tick may still start, was listed by the last tick that untracked. */
  ghost predicate Within(s: State) {
    && s.memory.tracked.Keys <= s.listed && s.memory.pending.Keys <= s.listed
    && (s.tick.Reconciling? ==> s.tick.todo.Keys <= s.listed && (!s.tick.work.NoWork? ==> s.tick.work.id in s.listed))
  }

  lemma WithinNext(s: State, e: Event)
    requires Within(s)
    ensures Within(Next(s, e))
  {
  }

  /** So between two untrack passes, through every interleaving, nothing is tracked or pending that the first did not list. */
  lemma {:induction false} TrackedWithinListing(es: seq<Event>)
    ensures Within(Run(START, es))
  {
    if es != [] {
      TrackedWithinListing(es[..|es| - 1]);
      WithinNext(Run(START, es[..|es| - 1]), es[|es| - 1]);
    }
  }

  // ---- One init at a time ----

  /** The row is pending, one init of it is in flight, and the tick is not about to start another. */
  ghost predicate Steady(s: State, x: int, k: nat) {
    && Sound(s) && x in s.memory.pending && Flights(s, x) == {k}
    && (s.tick.Reconciling? ==>
          !(s.tick.work.WillStart? && s.tick.work.id == x) && !(s.tick.work.WillPrune? && s.tick.work.id == x && s.tick.work.start))
  }

  /** The event leaves the pending entry of `x` alone, and does not find the torrent of a single-file row of it dead. */
  ghost predicate Spares(s: State, e: Event, x: int) {
    match e
    case Remove(id) => id != x
    case Forget(id, _, pending) => id != x || !pending
    case TickUntracks => s.tick.Listed? ==> x in s.tick.rows
    case TickDecides(id, dead) => id == x && dead && s.tick.Reconciling? && x in s.tick.todo ==> s.tick.todo[x].whole
    case InitExits(k) => k in s.inits ==> s.inits[k].id != x
    case _ => true
  }

  ghost predicate AllSpare(s: State, es: seq<Event>, x: int) {
    forall i | 0 <= i < |es| :: Spares(Run(s, es[..i]), es[i], x)
  }

  lemma SteadyNext(s: State, x: int, k: nat, e: Event)
    requires Steady(s, x, k) && Spares(s, e, x)
    ensures Steady(Next(s, e), x, k)
  {
    NextSound(s, e);
    var t := Next(s, e);
    forall j ensures j in Flights(t, x) <==> j in Flights(s, x) {
      assert j in s.inits ==> j != s.next;
    }
  }

  lemma BecomesSteady(s: State, x: int)
    requires Sound(s) && Flights(s, x) == {} && s.tick.Reconciling? && s.tick.work.WillStart? && s.tick.work.id == x
    ensures Steady(Next(s, TickActs), x, s.next)
  {
    NextSound(s, TickActs);
    forall j ensures j in Flights(Next(s, TickActs), x) <==> j == s.next {
      assert j in s.inits ==> j !in Flights(s, x);
    }
  }

  /** A pending row never gets a second init while it stays pending, however many ticks come and go. */
  lemma {:induction false} PendingKeepsOneInit(s: State, x: int, k: nat, es: seq<Event>)
    requires Steady(s, x, k) && AllSpare(s, es, x)
    ensures Steady(Run(s, es), x, k)
  {
    if es != [] {
      var init := es[..|es| - 1];
      forall i | 0 <= i < |init| ensures Spares(Run(s, init[..i]), init[i], x) {
        assert init[..i] == es[..i] && init[i] == es[i];
      }
      PendingKeepsOneInit(s, x, k, init);
      SteadyNext(Run(s, init), x, k, es[|es| - 1]);
    }
  }

  // ---- Gone for good ----

  /** Deleted, neither tracked nor pending, and no tick that listed it left to start it. */
  ghost predicate Gone(s: State, x: int) {
    x in s.deleted && x !in s.memory.tracked && x !in s.memory.pending && !CanStart(s, x)
  }

  lemma GoneNext(s: State, x: int, e: Event)
    requires Sound(s) && Gone(s, x)
    ensures Gone(Next(s, e), x)
  {
  }

  lemma {:induction false} GoneForever(s: State, x: int, es: seq<Event>)
    requires Sound(s) && Gone(s, x)
    ensures Gone(Run(s, es), x)
  {
    if es != [] {
      GoneForever(s, x, es[..|es| - 1]);
      RunSound(s, es[..|es| - 1]);
      GoneNext(Run(s, es[..|es| - 1]), x, es[|es| - 1]);
    }
  }

  /** Once a tick that did not list a deleted row has untracked, the row is never tracked again. */
  lemma FreshTickEndsIt(s: State, x: int, es: seq<Event>)
    requires Sound(s) && x in s.deleted && s.tick.Listed? && x !in s.tick.rows
    ensures x !in Run(Next(s, TickUntracks), es).memory.tracked
  {
    var t := Next(s, TickUntracks);
    RunSound(s, [TickUntracks]);
    assert Run(s, [TickUntracks]) == t by { assert [TickUntracks][..0] == []; }
    GoneForever(t, x, es);
  }

  // ---- An init in flight when its row is removed ----

  ghost predicate AtMostOne(ks: set<nat>) {
    forall i, j | i in ks && j in ks :: i == j
  }

  lemma FlightsStep(s: State, x: int, e: Event)
    ensures var due := e.TickActs? && s.tick.Reconciling? && s.tick.work.WillStart? && s.tick.work.id == x;
      Flights(Next(s, e), x) == if due then Flights(s, x) + {s.next}
                                else if e.InitExits? && e.k in s.inits && s.inits[e.k].phase.Exiting? then Flights(s, x) - {e.k}
                                else Flights(s, x)
    requires Sound(s)
  {
  }

  /** Init `k` of the deleted `x` has not been promoted, and one of three things stands in its way. */
  ghost predicate Blocked(s: State, x: int, k: nat) {
    && x in s.deleted && k !in s.promoted && k < s.next
    && (k in Flights(s, x) || k !in s.inits)
    && (k in Flights(s, x) ==>
          || (!CanStart(s, x) && x !in s.memory.pending)
          || (x in s.memory.removed && AtMostOne(Flights(s, x) - {k}) && (CanStart(s, x) ==> Flights(s, x) - {k} == {})))
  }

  lemma BlockedNext(s: State, x: int, k: nat, e: Event)
    requires Sound(s) && Blocked(s, x, k)
    ensures Blocked(Next(s, e), x, k)
  {
    FlightsStep(s, x, e);
    assert e.InitExits? && e.k in s.inits && s.inits[e.k].id == x && e.k != k ==> e.k in Flights(s, x) - {k};
    assert Flights(s, x) + {s.next} - {k} == (Flights(s, x) - {k}) + {s.next};
  }

  lemma {:induction false} BlockedForever(s: State, x: int, k: nat, es: seq<Event>)
    requires Sound(s) && Blocked(s, x, k)
    ensures Blocked(Run(s, es), x, k)
  {
    if es != [] {
      BlockedForever(s, x, k, es[..|es| - 1]);
      RunSound(s, es[..|es| - 1]);
      BlockedNext(Run(s, es[..|es| - 1]), x, k, es[|es| - 1]);
    }
  }

  /** The deleted `x` is not tracked, and no init of it, running or still to start, can change that. */
  ghost predicate Shut(s: State, x: int) {
    && x in s.deleted && x !in s.memory.tracked
    && (|| (!CanStart(s, x) && x !in s.memory.pending)
        || (x in s.memory.removed && AtMostOne(Flights(s, x)) && (CanStart(s, x) ==> Flights(s, x) == {})))
  }

  lemma ShutNext(s: State, x: int, e: Event)
    requires Sound(s) && Shut(s, x)
    ensures Shut(Next(s, e), x)
  {
    FlightsStep(s, x, e);
    assert e.InitExits? && e.k in s.inits && s.inits[e.k].id == x ==> e.k in Flights(s, x);
  }

  lemma {:induction false} ShutForever(s: State, x: int, es: seq<Event>)
    requires Sound(s) && Shut(s, x)
    ensures Shut(Run(s, es), x)
  {
    if es != [] {
      ShutForever(s, x, es[..|es| - 1]);
      RunSound(s, es[..|es| - 1]);
      ShutNext(Run(s, es[..|es| - 1]), x, es[|es| - 1]);
    }
  }

  // ---- The runs that do bring a row back ----

  lemma RunOne(s: State, es: seq<Event>, e: Event)
    ensures Run(s, es + [e]) == Next(Run(s, es), e)
  {
    assert (es + [e])[..|es|] == es;
  }

  lemma {:induction false} RunConcat(s: State, es: seq<Event>, fs: seq<Event>)
    ensures Run(s, es + fs) == Run(Run(s, es), fs)
  {
    if fs == [] {
      assert es + fs == es;
    } else {
      RunConcat(s, es, fs[..|fs| - 1]);
      assert (es + fs)[..|es + fs| - 1] == es + fs[..|fs| - 1];
    }
  }

  /** The end of one init of `x` takes the tombstone with it. */
  lemma ClearTombstone(s: State, x: int, j: nat)
    requires j in Flights(s, x)
    ensures Run(s, [InitBails(j), InitExits(j)]) == s.(memory := WithExited(s.memory, x), inits := s.inits - {j})
  {
    RunOne(s, [], InitBails(j));
    RunOne(s, [InitBails(j)], InitExits(j));
    assert [InitBails(j)] + [InitExits(j)] == [InitBails(j), InitExits(j)];
  }

  /** The tick is free to decide about `x`, or has decided to start it. */
  ghost predicate AboutTo(s: State, x: int) {
    s.tick.Reconciling? && ((s.tick.work.NoWork? && x in s.tick.todo) || (s.tick.work.WillStart? && s.tick.work.id == x))
  }

  /** Nothing about `x` but the tick's progress has changed, and no init has ended. */
  ghost predicate Onward(s: State, t: State, x: int) {
    && (x in t.memory.tracked ==> x in s.memory.tracked) && (x in t.memory.pending ==> x in s.memory.pending)
    && t.memory.removed == s.memory.removed && t.promoted == s.promoted && t.next >= s.next
    && (forall k | k in s.inits :: k in t.inits && t.inits[k] == s.inits[k])
  }

  /** A tick that can still start `x` gets to it. */
  lemma Approach(s: State, x: int) returns (es: seq<Event>)
    requires Sound(s) && CanStart(s, x)
    ensures AboutTo(Run(s, es), x) && Onward(s, Run(s, es), x) && Sound(Run(s, es))
  {
    if s.tick.Listed? {
      es := [TickUntracks];
      RunOne(s, [], TickUntracks);
    } else {
      es := [];
      for i := 0 to 2
        invariant Sound(Run(s, es)) && Onward(s, Run(s, es), x)
        invariant var t := Run(s, es).tick;
          t.Reconciling? && CanStart(Run(s, es), x)
          && (i == 1 ==> !t.work.WillPrune?) && (i == 2 ==> AboutTo(Run(s, es), x))
      {
        if !AboutTo(Run(s, es), x) {
          RunOne(s, es, TickActs);
          es := es + [TickActs];
        }
      }
    }
  }

  lemma StartHere(s: State, x: int) returns (es: seq<Event>)
    requires Sound(s) && AboutTo(s, x) && x !in s.memory.tracked && x !in s.memory.pending
    ensures var t := Run(s, es);
      && x in t.memory.pending && t.memory.removed == s.memory.removed && t.promoted == s.promoted
      && exists hash :: t.inits == s.inits[s.next := Init(x, hash, Resolving)]
  {
    if s.tick.work.NoWork? {
      var hash := s.tick.todo[x].hash;
      es := [TickDecides(x, false), TickActs];
      RunOne(s, [], TickDecides(x, false));
      RunOne(s, [TickDecides(x, false)], TickActs);
      assert [TickDecides(x, false)] + [TickActs] == es;
      assert Run(s, es).inits == s.inits[s.next := Init(x, hash, Resolving)];
    } else {
      var hash := s.tick.work.hash;
      es := [TickActs];
      RunOne(s, [], TickActs);
      assert Run(s, es).inits == s.inits[s.next := Init(x, hash, Resolving)];
    }
  }

  /** A tick that can still start `x` starts it, if nothing of `x` is pending or tracked by then. */
  lemma StartAnother(s: State, x: int) returns (es: seq<Event>)
    requires Sound(s) && CanStart(s, x) && x !in s.memory.tracked && x !in s.memory.pending
    ensures var t := Run(s, es);
      && x in t.memory.pending && t.memory.removed == s.memory.removed && t.promoted == s.promoted
      && (forall k | k in s.inits :: k in t.inits && t.inits[k] == s.inits[k])
      && exists n: nat :: n in t.inits && n !in s.inits && t.inits[n].id == x && t.inits[n].phase.Resolving?
  {
    var fs := Approach(s, x);
    var t := Run(s, fs);
    var gs := StartHere(t, x);
    RunConcat(s, fs, gs);
    es := fs + gs;
    assert t.next in Run(s, es).inits && t.next !in s.inits;
  }

  /** The state just after the worker was told of the deletion of `x`. */
  ghost predicate JustRemoved(s: State, x: int) {
    && Sound(s) && x in s.deleted
    && x !in s.memory.tracked && x !in s.memory.pending && x in s.memory.removed
  }

  lemma RemoveGives(s: State, x: int)
    requires Sound(s) && x in s.deleted
    ensures JustRemoved(Next(s, Remove(x)), x)
  {
  }

  /**
    * After a removal the row can be tracked again exactly when two things come together: an init of it is still
    * in flight, whose end takes the tombstone away, and a tick that listed the row before can still start another.
    */
  lemma ResurrectionExactly(s: State, x: int)
    requires Sound(s) && x in s.deleted
    ensures (exists es :: x in Run(Next(s, Remove(x)), es).memory.tracked) <==> CanStart(s, x) && Flights(s, x) != {}
  {
    RemoveGives(s, x);
    TrackedAgain(Next(s, Remove(x)), x);
    assert Flights(Next(s, Remove(x)), x) == Flights(s, x);
  }

  lemma TrackedAgain(s: State, x: int)
    requires JustRemoved(s, x)
    ensures (exists es :: x in Run(s, es).memory.tracked) <==> CanStart(s, x) && Flights(s, x) != {}
  {
    if CanStart(s, x) && Flights(s, x) != {} {
      var j :| j in Flights(s, x);
      ClearTombstone(s, x, j);
      var es := [InitBails(j), InitExits(j)];
      var t := Run(s, es);
      RunSound(s, es);
      var fs := StartAnother(t, x);
      RunConcat(s, es, fs);
      var n: nat :| n in Run(t, fs).inits && n !in t.inits && Run(t, fs).inits[n].id == x && Run(t, fs).inits[n].phase.Resolving?;
      RunOne(s, es + fs, InitPromotes(n));
      assert x in Run(s, es + fs + [InitPromotes(n)]).memory.tracked;
    } else {
      forall es ensures x !in Run(s, es).memory.tracked {
        ShutForever(s, x, es);
      }
    }
  }

  /**
    * An init in flight when its row is removed can be promoted afterwards exactly when a second one was in flight
    * with it and such a tick is under way; so an init that is alone never inserts the deleted id.
    */
  lemma LatePromotionExactly(s: State, x: int, k: nat)
    requires Sound(s) && x in s.deleted && k in Flights(s, x) && s.inits[k].phase.Resolving? && k !in s.promoted
    ensures (exists es :: k in Run(Next(s, Remove(x)), es).promoted) <==> CanStart(s, x) && Flights(s, x) != {k}
  {
    RemoveGives(s, x);
    PromotedLate(Next(s, Remove(x)), x, k);
    assert Flights(Next(s, Remove(x)), x) == Flights(s, x);
  }

  /** The end of one init lets the tick start another, whose pending entry the first of them is promoted on. */
  lemma PromotedAfter(s: State, x: int, j: nat, k: nat)
    requires JustRemoved(s, x) && CanStart(s, x) && j in Flights(s, x) && k in Flights(s, x) && j != k
    requires s.inits[k].phase.Resolving?
    ensures exists es :: k in Run(s, es).promoted
  {
    ClearTombstone(s, x, j);
    var es := [InitBails(j), InitExits(j)];
    var t := Run(s, es);
    RunSound(s, es);
    var fs := StartAnother(t, x);
    RunConcat(s, es, fs);
    RunOne(s, es + fs, InitPromotes(k));
    assert k in Run(s, es + fs + [InitPromotes(k)]).promoted;
  }

  lemma PromotedLate(s: State, x: int, k: nat)
    requires JustRemoved(s, x) && k in Flights(s, x) && s.inits[k].phase.Resolving? && k !in s.promoted
    ensures (exists es :: k in Run(s, es).promoted) <==> CanStart(s, x) && Flights(s, x) != {k}
  {
    if CanStart(s, x) && Flights(s, x) != {k} {
      var j :| j in Flights(s, x) && j != k;
      PromotedAfter(s, x, j, k);
    } else {
      forall es ensures k !in Run(s, es).promoted {
        BlockedForever(s, x, k, es);
      }
    }
  }

  // ---- Both come about ----

  lemma RunPrefix(s: State, es: seq<Event>, k: nat)
    requires k < |es|
    ensures Run(s, es[..k + 1]) == Next(Run(s, es[..k]), es[k])
  {
    assert es[..k + 1][..k] == es[..k];
  }

  /** A tick lists one row, starts an init of it, and ends. */
  function FullTick(x: int): seq<Event> {
    [TickLists, TickUntracks, TickDecides(x, false), TickActs, TickEnds]
  }

  lemma TickStartsOne(s: State, x: int, row: Row)
    requires s.tick.Idle? && s.active == map[x := row] && x !in s.memory.tracked && x !in s.memory.pending
    ensures var t := Run(s, FullTick(x));
      && t == s.(memory := t.memory, inits := s.inits[s.next := Init(x, row.hash, Resolving)], next := s.next + 1, listed := {x})
      && t.memory.removed == s.memory.removed && x !in t.memory.tracked
  {
    DecidesOne(s, x, row);
    var u := Next(Next(Next(s, TickLists), TickUntracks), TickDecides(x, false));
    RunFive(s, FullTick(x));
    assert Next(u, TickActs).tick == Reconciling(map[], NoWork);
  }

  lemma DecidesOne(s: State, x: int, row: Row)
    requires s.tick.Idle? && s.active == map[x := row] && x !in s.memory.tracked && x !in s.memory.pending
    ensures var u := Next(Next(Next(s, TickLists), TickUntracks), TickDecides(x, false));
      && u == s.(memory := u.memory, tick := Reconciling(map[], WillStart(x, row.hash)), listed := {x})
      && u.memory.removed == s.memory.removed && x !in u.memory.tracked
  {
    var only := map[x := row];
    assert only - {x} == map[] && only.Keys == {x};
  }

  lemma RunFive(s: State, es: seq<Event>)
    requires |es| == 5
    ensures Run(s, es) == Next(Next(Next(Next(Next(s, es[0]), es[1]), es[2]), es[3]), es[4])
  {
    RunPrefix(s, es, 0);
    RunPrefix(s, es, 1);
    RunPrefix(s, es, 2);
    RunPrefix(s, es, 3);
    RunPrefix(s, es, 4);
    assert es[..5] == es;
  }

  /** Paused for one whole tick, a row loses its pending entry but not its init, which goes on. */
  function Pause(x: int): seq<Event> {
    [RowStops(x), TickLists, TickUntracks, TickEnds]
  }

  lemma PauseForgets(s: State, x: int, row: Row)
    requires s.tick.Idle? && s.active == map[x := row]
    ensures var t := Run(s, Pause(x));
      && t == s.(active := map[], memory := t.memory, listed := {})
      && t.memory.removed == s.memory.removed && x !in t.memory.tracked && x !in t.memory.pending
  {
    var es := Pause(x);
    RunPrefix(s, es, 0);
    RunPrefix(s, es, 1);
    RunPrefix(s, es, 2);
    RunPrefix(s, es, 3);
    var none: map<int, Row> := map[];
    assert map[x := row] - {x} == none && none.Keys == {};
    assert Run(s, es[..2]).tick == Listed(none);
    assert Run(s, es[..3]).tick == Reconciling(none, NoWork);
    assert es[..4] == es;
  }

  /** Listed once more, and deleted before that tick goes on. */
  function DeletedUnderTick(x: int): seq<Event> {
    [TickLists, RowDeleted(x), Remove(x)]
  }

  lemma DeletionUnderTick(s: State, x: int, row: Row)
    requires Sound(s) && s.tick.Idle? && s.active == map[x := row]
    ensures var t := Run(s, DeletedUnderTick(x));
      JustRemoved(t, x) && CanStart(t, x) && t.inits == s.inits && t.promoted == s.promoted
  {
    var es := DeletedUnderTick(x);
    RunPrefix(s, es, 0);
    RunPrefix(s, es, 1);
    RunPrefix(s, es, 2);
    assert es[..3] == es;
    RunSound(s, es);
  }

  /** A first tick gives the row an init. */
  lemma FirstInit(x: int, row: Row)
    ensures var s := Run(START, [RowStarts(x, row)] + FullTick(x));
      && s.tick.Idle? && s.active == map[x := row] && s.deleted == {} && s.promoted == {} && s.next == 1
      && s.inits == map[0 := Init(x, row.hash, Resolving)]
  {
    RunOne(START, [], RowStarts(x, row));
    var s1 := Next(START, RowStarts(x, row));
    assert Run(START, [RowStarts(x, row)]) == s1;
    RunConcat(START, [RowStarts(x, row)], FullTick(x));
    TickStartsOne(s1, x, row);
  }

  /** A run from the start after which a deleted row is tracked: its init outlives the deletion, and so does a tick. */
  lemma Resurrects(x: int, row: Row)
    ensures exists es :: x in Run(START, es).deleted && x in Run(START, es).memory.tracked
  {
    var es := [RowStarts(x, row)] + FullTick(x);
    FirstInit(x, row);
    var s := Run(START, es);
    RunSound(START, es);
    DeletionUnderTick(s, x, row);
    var t := Run(s, DeletedUnderTick(x));
    RunConcat(START, es, DeletedUnderTick(x));
    assert 0 in Flights(t, x);
    TrackedAgain(t, x);
    var fs :| x in Run(t, fs).memory.tracked;
    RunConcat(START, es + DeletedUnderTick(x), fs);
    StaysDeleted(t, x, fs);
    assert x in Run(START, es + DeletedUnderTick(x) + fs).memory.tracked;
  }

  lemma {:induction false} StaysDeleted(s: State, x: int, es: seq<Event>)
    requires x in s.deleted
    ensures x in Run(s, es).deleted
  {
    if es != [] {
      StaysDeleted(s, x, es[..|es| - 1]);
    }
  }

  /** Paused and resumed while its init goes on, a row has two inits in flight. */
  lemma SecondInit(x: int, row: Row)
    ensures var s := Run(START, [RowStarts(x, row)] + FullTick(x) + Pause(x) + [RowStarts(x, row)] + FullTick(x));
      && s.tick.Idle? && s.active == map[x := row] && s.deleted == {} && s.promoted == {}
      && s.inits == map[0 := Init(x, row.hash, Resolving)][1 := Init(x, row.hash, Resolving)]
  {
    var es := [RowStarts(x, row)] + FullTick(x);
    FirstInit(x, row);
    var s1 := Run(START, es);
    PauseForgets(s1, x, row);
    RunConcat(START, es, Pause(x));
    var s2 := Run(s1, Pause(x));
    RunOne(START, es + Pause(x), RowStarts(x, row));
    var s3 := Next(s2, RowStarts(x, row));
    RunConcat(START, es + Pause(x) + [RowStarts(x, row)], FullTick(x));
    TickStartsOne(s3, x, row);
  }

  /** And both are when it is deleted under a third tick. */
  lemma RemovedWithTwo(x: int, row: Row)
    ensures exists es :: var t := Run(START, es);
      && JustRemoved(t, x) && CanStart(t, x) && t.promoted == {}
      && t.inits == map[0 := Init(x, row.hash, Resolving)][1 := Init(x, row.hash, Resolving)]
  {
    var es := [RowStarts(x, row)] + FullTick(x) + Pause(x) + [RowStarts(x, row)] + FullTick(x);
    SecondInit(x, row);
    RunSound(START, es);
    DeletionUnderTick(Run(START, es), x, row);
    RunConcat(START, es, DeletedUnderTick(x));
    assert Run(START, es + DeletedUnderTick(x)) == Run(Run(START, es), DeletedUnderTick(x));
  }

  /** A run from the start in which an init in flight when its row is removed is promoted all the same. */
  lemma LatePromotes(x: int, row: Row)
    ensures exists es, fs :: JustRemoved(Run(START, es), x) && 0 in Flights(Run(START, es), x)
                             && 0 !in Run(START, es).promoted && 0 in Run(START, es + fs).promoted
  {
    RemovedWithTwo(x, row);
    var es :| var t := Run(START, es);
      && JustRemoved(t, x) && CanStart(t, x) && t.promoted == {}
      && t.inits == map[0 := Init(x, row.hash, Resolving)][1 := Init(x, row.hash, Resolving)];
    var t := Run(START, es);
    assert 0 in Flights(t, x) && 1 in Flights(t, x);
    PromotedLate(t, x, 0);
    var fs :| 0 in Run(t, fs).promoted;
    RunConcat(START, es, fs);
  }
}
