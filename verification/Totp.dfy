/** Time-based one-time passwords (RFC 6238) with a memory of the newest step each user has spent. */
module Totp {
  import opened Options
  import opened Quantities

  const STEP_SECONDS := 30
  const TWO_64 := 0x1_0000_0000_0000_0000
  const TWO_63 := 0x8000_0000_0000_0000

  /** The code a secret gives at a step; the HMAC behind it is not modelled. */
  type CodeAt = (string, nat) -> string

  /** The clock's step: division truncates toward zero. */
  function ClockStep(unix: int): int {
    if unix >= 0 then unix / STEP_SECONDS else -(-unix / STEP_SECONDS)
  }

  /** The steps tried, oldest first; the one before zero wraps to the largest 64-bit number. */
  function Window(clock: nat): seq<nat> {
    [if clock == 0 then TWO_64 - 1 else clock - 1, clock, clock + 1]
  }

  /** The first step tried that gives the code. */
  function FirstMatch(secret: string, code: string, steps: seq<nat>, codeAt: CodeAt): (r: Option<nat>)
    ensures r.Some? ==> r.value in steps && codeAt(secret, r.value) == code
    ensures r.None? ==> forall c <- steps :: codeAt(secret, c) != code
  {
    if steps == [] then None
    else if codeAt(secret, steps[0]) == code then Some(steps[0])
    else FirstMatch(secret, code, steps[1..], codeAt)
  }

  function MatchedStep(secret: string, code: string, unix: int, codeAt: CodeAt): Option<nat> {
    if |code| != 6 || secret == "" || ClockStep(unix) < 0 then None
    else FirstMatch(secret, code, Window(ClockStep(unix)), codeAt)
  }

  method ValidateTOTPStep(secret: string, code: string, unix: int, codeAt: CodeAt) returns (step: nat, ok: bool)
    ensures MatchedStep(secret, code, unix, codeAt) == if ok then Some(step) else None
    ensures ok ==> |code| == 6 && secret != "" && unix > -30
    ensures |code| == 6 && secret != "" && unix > -30 ==>
      var clock := if unix >= 0 then unix / 30 else 0;
      var before := if clock == 0 then 0xFFFF_FFFF_FFFF_FFFF else clock - 1;
      if codeAt(secret, before) == code then ok && step == before
      else if codeAt(secret, clock) == code then ok && step == clock
      else if codeAt(secret, clock + 1) == code then ok && step == clock + 1
      else !ok
  {
    if |code| != 6 || secret == "" {
      return 0, false;
    }
    var now := ClockStep(unix);
    if now < 0 {
      return 0, false;
    }
    var window := Window(now);
    for i := 0 to 3
      invariant FirstMatch(secret, code, window, codeAt) == FirstMatch(secret, code, window[i..], codeAt)
    {
      assert window[i..][0] == window[i] && window[i..][1..] == window[i + 1..];
      if codeAt(secret, window[i]) == code {
        return window[i], true;
      }
    }
    return 0, false;
  }

  class ReplayCache {
    var last: map<int, nat>

    constructor ()
      ensures last == map[]
    {
      last := map[];
    }

    /** Spends a step, unless the user has spent it or a newer one. */
    method Allow(userId: int, step: nat) returns (ok: bool)
      modifies this
      ensures ok <==> Fresh(old(last), userId, step)
      ensures ok <==> userId !in old(last) || step > old(last)[userId]
      ensures last == if ok then old(last)[userId := step] else old(last)
    {
      if userId in last && step <= last[userId] {
        return false;
      }
      last := last[userId := step];
      return true;
    }
  }

  predicate Fresh(last: map<int, nat>, userId: int, step: nat) {
    userId !in last || step > last[userId]
  }

  // ---- Runs of logins ----

  datatype Attempt = Attempt(userId: int, secret: string, code: string, unix: int)

  /** The step an attempt spends: the one its code matched, when that is newer than any the user spent. */
  function Spent(last: map<int, nat>, a: Attempt, codeAt: CodeAt): Option<nat> {
    var step := MatchedStep(a.secret, a.code, a.unix, codeAt);
    if step.Some? && Fresh(last, a.userId, step.value) then step else None
  }

  /** `cache` is null in a store built without one: then only the code is checked. */
  method ValidateTOTPForUser(cache: ReplayCache?, a: Attempt, codeAt: CodeAt) returns (ok: bool)
    modifies cache
    ensures cache == null ==> ok == MatchedStep(a.secret, a.code, a.unix, codeAt).Some?
    ensures cache != null ==> ok == Spent(old(cache.last), a, codeAt).Some?
    ensures cache != null ==> cache.last == After(old(cache.last), a, codeAt)
  {
    var step, matched := ValidateTOTPStep(a.secret, a.code, a.unix, codeAt);
    if !matched {
      return false;
    }
    if cache == null {
      return true;
    }
    ok := cache.Allow(a.userId, step);
  }

  function After(last: map<int, nat>, a: Attempt, codeAt: CodeAt): map<int, nat> {
    var step := Spent(last, a, codeAt);
    if step.Some? then last[a.userId := step.value] else last
  }

  /** The steps one user spends over a run, in order. */
  ghost function SpentBy(last: map<int, nat>, run: seq<Attempt>, user: int, codeAt: CodeAt): seq<nat>
    decreases |run|
  {
    if run == [] then []
    else
      var step := Spent(last, run[0], codeAt);
      var rest := SpentBy(After(last, run[0], codeAt), run[1..], user, codeAt);
      if step.Some? && run[0].userId == user then [step.value] + rest else rest
  }

  ghost predicate Increasing(s: seq<nat>) {
    forall i, j | 0 <= i < j < |s| :: s[i] < s[j]
  }

  /** Single use: over any run the steps a user spends strictly increase, so none is spent twice. */
  lemma {:induction false} StepsIncrease(last: map<int, nat>, run: seq<Attempt>, user: int, codeAt: CodeAt)
    ensures Increasing(SpentBy(last, run, user, codeAt))
    ensures forall s <- SpentBy(last, run, user, codeAt) :: Fresh(last, user, s)
    decreases |run|
  {
    if run != [] {
      var step := Spent(last, run[0], codeAt);
      var rest := SpentBy(After(last, run[0], codeAt), run[1..], user, codeAt);
      StepsIncrease(After(last, run[0], codeAt), run[1..], user, codeAt);
      if step.Some? && run[0].userId == user {
        forall i, j | 0 <= i < j < |[step.value] + rest| ensures ([step.value] + rest)[i] < ([step.value] + rest)[j] {
          assert rest[j - 1] in rest;
        }
      }
    }
  }

  /** All attempts of the user are made while the clock's step is between `a` and `b`. */
  ghost predicate During(run: seq<Attempt>, user: int, a: nat, b: nat) {
    forall i | 0 <= i < |run| && run[i].userId == user :: a <= ClockStep(run[i].unix) <= b
  }

  /** What a clock between `a` and `b` can match. */
  ghost predicate Near(s: nat, a: nat, b: nat) {
    a - 1 <= s <= b + 1 || (a == 0 && s == TWO_64 - 1)
  }

  lemma {:induction false} SpentNear(last: map<int, nat>, run: seq<Attempt>, user: int, codeAt: CodeAt, a: nat, b: nat)
    requires During(run, user, a, b)
    ensures forall s <- SpentBy(last, run, user, codeAt) :: Near(s, a, b)
    decreases |run|
  {
    if run != [] {
      assert forall i | 0 <= i < |run[1..]| :: run[1..][i] == run[i + 1];
      SpentNear(After(last, run[0], codeAt), run[1..], user, codeAt, a, b);
    }
  }

  lemma {:induction false} IncreasingWithin(s: seq<nat>, lo: int, hi: int)
    requires Increasing(s) && forall x <- s :: lo <= x <= hi
    ensures |s| <= Max(0, hi - lo + 1)
  {
    if s != [] {
      var init := s[..|s| - 1];
      var last: int := s[|s| - 1];
      assert last in s;
      forall x | x in init ensures lo <= x < last {
        var i :| 0 <= i < |init| && init[i] == x;
        assert s[i] < last && s[i] in s;
      }
      IncreasingWithin(init, lo, last - 1);
    }
  }

  /** While the clock's step stays between `a` and `b`, at most `b - a + 3` logins of a user by code succeed. */
  lemma LoginsBounded(last: map<int, nat>, run: seq<Attempt>, user: int, codeAt: CodeAt, a: nat, b: nat)
    requires a <= b && During(run, user, a, b)
    ensures |SpentBy(last, run, user, codeAt)| <= b - a + 3
  {
    var steps := SpentBy(last, run, user, codeAt);
    StepsIncrease(last, run, user, codeAt);
    SpentNear(last, run, user, codeAt, a, b);
    if a > 0 || steps == [] {
      IncreasingWithin(steps, a - 1, b + 1);
    } else {
      var init := steps[..|steps| - 1];
      forall x | x in init ensures 0 <= x <= b + 1 {
        var i :| 0 <= i < |init| && init[i] == x;
        assert steps[i] < steps[|steps| - 1] && steps[i] in steps && steps[|steps| - 1] in steps;
      }
      IncreasingWithin(init, 0, b + 1);
    }
  }

  /** A code whose step is in the window and is newer than any spent logs its user in, when the window's codes differ. */
  lemma FreshCodeAccepted(last: map<int, nat>, a: Attempt, step: nat, codeAt: CodeAt)
    requires |a.code| == 6 && a.secret != "" && a.code == codeAt(a.secret, step)
    requires ClockStep(a.unix) >= 0 && step in Window(ClockStep(a.unix))
    requires forall c <- Window(ClockStep(a.unix)) :: codeAt(a.secret, c) == a.code ==> c == step
    ensures Spent(last, a, codeAt) == if Fresh(last, a.userId, step) then Some(step) else None
  {
    assert FirstMatch(a.secret, a.code, Window(ClockStep(a.unix)), codeAt).Some?;
  }

  // ---- The bound is reached ----

  /** One attempt per step from `c` to `b + 1`, each as the clock comes nearest. */
  ghost function Sweep(user: int, secret: string, codeAt: CodeAt, a: nat, b: nat, c: nat): seq<Attempt>
    requires 0 < a <= b && a - 1 <= c
    decreases b + 2 - c
  {
    if c > b + 1 then []
    else
      var clock := if c < a then a else if c > b then b else c;
      [Attempt(user, secret, codeAt(secret, c), clock * STEP_SECONDS)] + Sweep(user, secret, codeAt, a, b, c + 1)
  }

  ghost predicate DistinctCodes(secret: string, codeAt: CodeAt, lo: nat, hi: nat) {
    && (forall c | lo <= c <= hi :: |codeAt(secret, c)| == 6)
    && forall c, d | lo <= c <= hi && lo <= d <= hi && codeAt(secret, c) == codeAt(secret, d) :: c == d
  }

  lemma {:induction false} SweepSpends(last: map<int, nat>, user: int, secret: string, codeAt: CodeAt,
                                       a: nat, b: nat, c: nat)
    requires 0 < a <= b && a - 1 <= c <= b + 2 && secret != "" && DistinctCodes(secret, codeAt, a - 1, b + 1)
    requires user in last ==> last[user] < c
    ensures |SpentBy(last, Sweep(user, secret, codeAt, a, b, c), user, codeAt)| == b + 2 - c
    decreases b + 2 - c
  {
    if c <= b + 1 {
      var run := Sweep(user, secret, codeAt, a, b, c);
      SweepRest(user, secret, codeAt, a, b, c);
      SweepFirst(last, user, secret, codeAt, a, b, c);
      SweepSpends(After(last, run[0], codeAt), user, secret, codeAt, a, b, c + 1);
    }
  }

  lemma SweepRest(user: int, secret: string, codeAt: CodeAt, a: nat, b: nat, c: nat)
    requires 0 < a <= b && a - 1 <= c <= b + 1
    ensures Sweep(user, secret, codeAt, a, b, c) != []
    ensures Sweep(user, secret, codeAt, a, b, c)[1..] == Sweep(user, secret, codeAt, a, b, c + 1)
  {
  }

  lemma {:induction false} SweepDuring(user: int, secret: string, codeAt: CodeAt, a: nat, b: nat, c: nat)
    requires 0 < a <= b && a - 1 <= c <= b + 2
    ensures During(Sweep(user, secret, codeAt, a, b, c), user, a, b)
    decreases b + 2 - c
  {
    if c <= b + 1 {
      SweepClock(a, b, c);
      SweepDuring(user, secret, codeAt, a, b, c + 1);
    }
  }

  /** The first attempt of a sweep spends its step. */
  lemma SweepFirst(last: map<int, nat>, user: int, secret: string, codeAt: CodeAt, a: nat, b: nat, c: nat)
    requires 0 < a <= b && a - 1 <= c <= b + 1 && secret != "" && DistinctCodes(secret, codeAt, a - 1, b + 1)
    requires user in last ==> last[user] < c
    ensures var first := Sweep(user, secret, codeAt, a, b, c)[0];
      && first.userId == user && a <= ClockStep(first.unix) <= b
      && Spent(last, first, codeAt) == Some(c)
      && user in After(last, first, codeAt) && After(last, first, codeAt)[user] == c
  {
    var first := Sweep(user, secret, codeAt, a, b, c)[0];
    SweepClock(a, b, c);
    FreshCodeAccepted(last, first, c, codeAt);
  }

  lemma SweepClock(a: nat, b: nat, c: nat)
    requires 0 < a <= b && a - 1 <= c <= b + 1
    ensures var step := ClockStep((if c < a then a else if c > b then b else c) * STEP_SECONDS);
      && a <= step <= b && c in Window(step) && forall w <- Window(step) :: a - 1 <= w <= b + 1
  {
  }

  /** A user whose codes differ can spend all `b - a + 3` steps. */
  lemma BoundReached(user: int, secret: string, codeAt: CodeAt, a: nat, b: nat)
    requires 0 < a <= b && secret != "" && DistinctCodes(secret, codeAt, a - 1, b + 1)
    ensures exists run :: During(run, user, a, b) && |SpentBy(map[], run, user, codeAt)| == b - a + 3
  {
    SweepSpends(map[], user, secret, codeAt, a, b, a - 1);
    SweepDuring(user, secret, codeAt, a, b, a - 1);
  }

  /**
    * The step before zero wraps to the largest one. A user who spends it, which only a clock at step zero
    * allows, never logs in by code again.
    */
  lemma {:induction false} WrapLocksOut(last: map<int, nat>, run: seq<Attempt>, user: int, codeAt: CodeAt)
    requires user in last && last[user] == TWO_64 - 1
    requires forall a <- run :: a.unix < TWO_63
    ensures SpentBy(last, run, user, codeAt) == []
    decreases |run|
  {
    if run != [] {
      assert run[0] in run;
      WrapLocksOut(After(last, run[0], codeAt), run[1..], user, codeAt);
    }
  }

  lemma WrapOnlyAtZero(last: map<int, nat>, a: Attempt, codeAt: CodeAt)
    requires a.unix < TWO_63
    ensures Spent(last, a, codeAt) == Some(TWO_64 - 1) ==> -STEP_SECONDS < a.unix < STEP_SECONDS
  {
    if ClockStep(a.unix) > 0 {
      assert forall c <- Window(ClockStep(a.unix)) :: c < TWO_64 - 1;
    }
  }
}
