/** Pacing calls per provider: each call reserves the provider's next free start. Times are nanoseconds. */
module RateLimit {
  import opened Quantities

  /** Exactly the providers with a positive cap have a gap between calls: a minute by the cap, rounded down. */
  ghost predicate BuiltFrom(intervals: map<string, nat>, rpm: map<string, int>) {
    && (forall p :: p in intervals <==> p in rpm && rpm[p] > 0)
    && forall p | p in intervals :: intervals[p] == 60_000_000_000 / rpm[p]
  }

  /** The last of the starts reserved for calls arriving at `nows`, for a positive gap. */
  function LastStart(nows: seq<nat>, iv: nat): (s: nat)
    requires nows != []
    ensures s >= nows[|nows| - 1]
  {
    var k := |nows| - 1;
    Max(nows[k], if k == 0 then 0 else LastStart(nows[..k], iv) + iv)
  }

  /** When a provider is free again. */
  function Due(nows: seq<nat>, iv: nat): nat {
    if nows == [] then 0 else LastStart(nows, iv) + iv
  }

  lemma DueStep(nows: seq<nat>, now: nat, iv: nat)
    ensures Due(nows + [now], iv) == Max(now, Due(nows, iv)) + iv
    ensures iv > 0 ==> Start(nows + [now], iv, |nows|) == Max(now, Due(nows, iv))
  {
    var after := nows + [now];
    assert after[..|nows|] == nows && after[..|nows| + 1] == after;
  }

  /** When the k-th call to a provider may start. Without a positive gap it starts on arrival. */
  function Start(nows: seq<nat>, iv: nat, k: nat): nat
    requires k < |nows|
  {
    if iv == 0 then nows[k] else LastStart(nows[..k + 1], iv)
  }

  /** A provider without an entry is free since time zero. */
  function FreeAt(nextFree: map<string, nat>, p: string): nat {
    if p in nextFree then nextFree[p] else 0
  }

  function ArrivalsAt(arrivals: map<string, seq<nat>>, p: string): seq<nat> {
    if p in arrivals then arrivals[p] else []
  }

  /** Every capped provider is next free when its own arrivals say. */
  ghost predicate InStep(nextFree: map<string, nat>, arrivals: map<string, seq<nat>>, intervals: map<string, nat>) {
    forall p | p in intervals && intervals[p] > 0 :: FreeAt(nextFree, p) == Due(ArrivalsAt(arrivals, p), intervals[p])
  }

  lemma StepReserved(nextFree: map<string, nat>, arrivals: map<string, seq<nat>>, intervals: map<string, nat>, q: string, now: nat)
    requires InStep(nextFree, arrivals, intervals) && q in intervals && intervals[q] > 0
    ensures var nows, start := ArrivalsAt(arrivals, q) + [now], Max(now, FreeAt(nextFree, q));
            && start == Start(nows, intervals[q], |nows| - 1)
            && InStep(nextFree[q := start + intervals[q]], arrivals[q := nows], intervals)
  {
    DueStep(ArrivalsAt(arrivals, q), now, intervals[q]);
  }

  lemma StepFree(nextFree: map<string, nat>, arrivals: map<string, seq<nat>>, intervals: map<string, nat>, q: string, now: nat)
    requires InStep(nextFree, arrivals, intervals) && (q in intervals ==> intervals[q] == 0)
    ensures var nows := ArrivalsAt(arrivals, q) + [now];
            Start(nows, 0, |nows| - 1) == now && InStep(nextFree, arrivals[q := nows], intervals)
  {
  }

  function Gap(intervals: map<string, nat>, p: string): nat {
    if p in intervals then intervals[p] else 0
  }

  class ProviderLimiter {
    const intervals: map<string, nat>
    var nextFree: map<string, nat>
    /** The arrivals of the calls made to each provider. */
    ghost var arrivals: map<string, seq<nat>>

    ghost predicate Valid()
      reads this
    {
      InStep(nextFree, arrivals, intervals)
    }

    constructor (intervals: map<string, nat>)
      ensures Valid() && arrivals == map[] && this.intervals == intervals
    {
      this.intervals := intervals;
      nextFree := map[];
      arrivals := map[];
    }

    /** Claims the next start for a call; the calls to other providers play no part in it. */
    method Reserve(provider: string, now: nat) returns (start: nat)
      requires Valid()
      modifies this
      ensures Valid() && arrivals == old(arrivals)[provider := ArrivalsAt(old(arrivals), provider) + [now]]
      ensures start == Start(arrivals[provider], Gap(intervals, provider), |arrivals[provider]| - 1)
      ensures forall p | p != provider :: FreeAt(nextFree, p) == FreeAt(old(nextFree), p)
    {
      ghost var nows := ArrivalsAt(arrivals, provider) + [now];
      if provider !in intervals || intervals[provider] <= 0 {
        StepFree(nextFree, arrivals, intervals, provider, now);
        arrivals := arrivals[provider := nows];
        return now;
      }
      StepReserved(nextFree, arrivals, intervals, provider, now);
      arrivals := arrivals[provider := nows];
      start := FreeAt(nextFree, provider);
      if start < now {
        start := now;
      }
      nextFree := nextFree[provider := start + intervals[provider]];
    }
  }

  /** Builds the limiter from the caps, or nothing when no provider is capped. */
  method NewProviderLimiter(rpm: map<string, int>) returns (l: ProviderLimiter?)
    ensures l == null <==> forall p | p in rpm :: rpm[p] <= 0
    ensures l != null ==> fresh(l) && l.Valid() && l.arrivals == map[] && BuiltFrom(l.intervals, rpm)
  {
    var intervals: map<string, nat> := map[];
    var todo := rpm.Keys;
    while todo != {}
      invariant todo <= rpm.Keys
      invariant forall p :: p in intervals <==> p in rpm && p !in todo && rpm[p] > 0
      invariant forall p | p in intervals :: intervals[p] == MINUTE / rpm[p]
    {
      var p :| p in todo;
      if rpm[p] > 0 {
        intervals := intervals[p := MINUTE / rpm[p]];
      }
      todo := todo - {p};
    }
    if |intervals| == 0 {
      assert forall p | p in rpm :: rpm[p] > 0 ==> p in intervals;
      return null;
    }
    assert intervals.Keys != {};
    ghost var capped :| capped in intervals.Keys;
    assert rpm[capped] > 0;
    l := new ProviderLimiter(intervals);
  }

  // ---- What the starts are ----

  /** Max-plus closed form: the k-th start is the largest of `now_j + (k - j) * iv` over the calls up to it. */
  lemma {:induction false} ClosedForm(nows: seq<nat>, iv: nat, k: nat)
    requires k < |nows| && iv > 0
    ensures forall j: nat | j <= k :: Start(nows, iv, k) >= nows[j] + (k - j) * iv
    ensures exists j: nat :: j <= k && Start(nows, iv, k) == nows[j] + (k - j) * iv
  {
    if k == 0 {
      assert Start(nows, iv, 0) == nows[0] + (0 - 0) * iv;
    } else {
      ClosedForm(nows, iv, k - 1);
      StartStep(nows, iv, k);
      forall j: nat | j <= k ensures Start(nows, iv, k) >= nows[j] + (k - j) * iv {
        if j < k {
          Distribute(k - j, iv);
        }
      }
      if Start(nows, iv, k) == nows[k] {
        assert Start(nows, iv, k) == nows[k] + (k - k) * iv;
      } else {
        var j: nat :| j <= k - 1 && Start(nows, iv, k - 1) == nows[j] + (k - 1 - j) * iv;
        Distribute(k - j, iv);
        assert Start(nows, iv, k) == nows[j] + (k - j) * iv;
      }
    }
  }

  lemma Distribute(n: int, iv: int)
    ensures n * iv == (n - 1) * iv + iv
  {
  }

  lemma StartStep(nows: seq<nat>, iv: nat, k: nat)
    requires 0 < k < |nows| && iv > 0
    ensures Start(nows, iv, k) == Max(nows[k], Start(nows, iv, k - 1) + iv)
  {
    assert nows[..k + 1][..k] == nows[..k];
  }

  /** Starts of one provider are at least the gap apart. */
  lemma {:induction false} Spaced(nows: seq<nat>, iv: nat, i: nat, k: nat)
    requires i <= k < |nows| && iv > 0
    ensures Start(nows, iv, k) >= Start(nows, iv, i) + (k - i) * iv
  {
    if i < k {
      Spaced(nows, iv, i, k - 1);
      StartStep(nows, iv, k);
      Distribute(k - i, iv);
    }
  }

  /** Nobody waits longer than needed: any schedule that respects arrivals and gaps starts each call no earlier. */
  lemma {:induction false} Earliest(nows: seq<nat>, iv: nat, schedule: seq<int>, k: nat)
    requires k < |nows| == |schedule| && iv > 0
    requires forall i | 0 <= i < |nows| :: schedule[i] >= nows[i]
    requires forall i | 0 < i < |nows| :: schedule[i] >= schedule[i - 1] + iv
    ensures Start(nows, iv, k) <= schedule[k]
  {
    if k > 0 {
      Earliest(nows, iv, schedule, k - 1);
      StartStep(nows, iv, k);
    }
  }

  // ---- How many calls start in a window ----

  /** The calls that start in the half-open window of length `t` from `from`. */
  ghost function StartsWithin(nows: seq<nat>, iv: nat, from: int, t: int): set<nat> {
    set k: nat | k < |nows| && from <= Start(nows, iv, k) < from + t
  }

  ghost function CeilDiv(t: int, iv: int): int
    requires iv > 0
  {
    (t + iv - 1) / iv
  }

  lemma {:induction false} WithinRange(s: set<nat>, lo: nat, n: nat)
    requires forall k <- s :: lo <= k < lo + n
    ensures |s| <= n
  {
    if n == 0 {
      assert s == {};
    } else {
      var rest := s - {lo + n - 1};
      WithinRange(rest, lo, n - 1);
      assert s <= rest + {lo + n - 1};
    }
  }

  /** The first of the calls in a non-empty window. */
  lemma {:induction false} FirstWithin(s: set<nat>) returns (lo: nat)
    requires s != {}
    ensures lo in s && forall k <- s :: lo <= k
  {
    var some :| some in s;
    lo := 0;
    while lo !in s
      invariant forall k <- s :: lo <= k
      decreases some - lo
    {
      assert lo <= some;
      lo := lo + 1;
    }
  }

  lemma CeilBound(n: nat, t: int, iv: int)
    requires iv > 0 && n * iv < t
    ensures n < CeilDiv(t, iv)
  {
    var q := CeilDiv(t, iv);
    assert q * iv + (t + iv - 1) % iv == t + iv - 1;
    assert q <= n ==> q * iv <= n * iv;
  }

  /** A window of length `t` holds at most `t / iv` starts, rounded up. */
  lemma WindowBound(nows: seq<nat>, iv: nat, from: int, t: int)
    requires iv > 0 && t > 0
    ensures |StartsWithin(nows, iv, from, t)| <= CeilDiv(t, iv)
  {
    var s := StartsWithin(nows, iv, from, t);
    if s != {} {
      var lo := FirstWithin(s);
      forall k | k in s ensures lo <= k < lo + CeilDiv(t, iv) {
        Spaced(nows, iv, lo, k);
        CeilBound(k - lo, t, iv);
      }
      CeilBound(0, t, iv);
      WithinRange(s, lo, CeilDiv(t, iv));
    }
  }

  /** Every window of one minute, whatever the arrivals, holds at most `r` starts of a provider capped at `r`. */
  ghost predicate KeepsCap(r: nat)
    requires r > 0
  {
    forall nows, from :: |StartsWithin(nows, MINUTE / r, from, MINUTE)| <= r
  }

  lemma {:induction false} BurstStart(nows: seq<nat>, iv: nat, k: nat)
    requires k < |nows| && iv > 0 && forall i | 0 <= i < |nows| :: nows[i] == 0
    ensures Start(nows, iv, k) == k * iv
  {
    if k > 0 {
      BurstStart(nows, iv, k - 1);
      StartStep(nows, iv, k);
      Distribute(k, iv);
    }
  }

  ghost function Below(n: nat): (s: set<nat>)
    ensures |s| == n && forall k: nat :: k in s <==> k < n
  {
    if n == 0 then {} else Below(n - 1) + {n - 1}
  }

  lemma BelowWhole(m: nat, r: nat, k: nat)
    requires r > 0 && m % r != 0 && k <= r
    ensures k * (m / r) < m
  {
    assert r * (m / r) + m % r == m;
    MulLe(k, r, m / r);
  }

  lemma MulLe(a: nat, b: nat, c: nat)
    requires a <= b
    ensures a * c <= b * c
  {
  }

  lemma KthInMinute(nows: seq<nat>, r: nat, k: nat)
    requires r > 0 && MINUTE % r != 0 && k <= r
    requires |nows| == r + 1 && forall i | 0 <= i < |nows| :: nows[i] == 0
    ensures Start(nows, MINUTE / r, k) < MINUTE
  {
    BelowWhole(MINUTE, r, k);
    if MINUTE / r > 0 {
      BurstStart(nows, MINUTE / r, k);
    }
  }

  /** When the cap does not divide a minute, `r + 1` calls at once all start within it. */
  lemma BurstBreaksCap(nows: seq<nat>, r: nat)
    requires r > 0 && MINUTE % r != 0
    requires |nows| == r + 1 && forall i | 0 <= i < |nows| :: nows[i] == 0
    ensures |StartsWithin(nows, MINUTE / r, 0, MINUTE)| == r + 1
  {
    var all, iv := Below(r + 1), MINUTE / r;
    forall k | k in all ensures Start(nows, iv, k) < MINUTE {
      KthInMinute(nows, r, k);
    }
    assert StartsWithin(nows, iv, 0, MINUTE) == all;
  }

  /**
    * The limiter keeps a provider under its cap of `r` calls a minute exactly when `r` divides a minute's
    * nanoseconds: otherwise the gap is rounded down, and a burst gets one call too many into the minute.
    */
  lemma CapKeptExactly(r: nat)
    requires r > 0
    ensures KeepsCap(r) <==> MINUTE % r == 0
  {
    var iv := MINUTE / r;
    if MINUTE % r == 0 {
      assert r * iv == MINUTE;
      assert iv > 0;
      CeilExact(r, iv);
      forall nows, from ensures |StartsWithin(nows, iv, from, MINUTE)| <= r {
        WindowBound(nows, iv, from, MINUTE);
      }
    } else {
      var burst: seq<nat> := seq(r + 1, i => 0);
      BurstBreaksCap(burst, r);
      assert |StartsWithin(burst, iv, 0, MINUTE)| > r;
    }
  }

  lemma CeilExact(r: nat, iv: nat)
    requires iv > 0
    ensures CeilDiv(r * iv, iv) == r
  {
    var q := CeilDiv(r * iv, iv);
    var m := (r * iv + iv - 1) % iv;
    assert q * iv + m == r * iv + iv - 1;
    assert q > r ==> q * iv >= (r + 1) * iv;
    assert q < r ==> (q + 1) * iv <= r * iv;
  }

  // ---- A limiter built from caps ----

  /** So it is of the starts a limiter built from the caps gives a provider. */
  lemma BuiltKeepsCapExactly(rpm: map<string, int>, intervals: map<string, nat>, p: string)
    requires BuiltFrom(intervals, rpm) && p in rpm && rpm[p] > 0
    ensures (forall nows, from :: |StartsWithin(nows, Gap(intervals, p), from, 60_000_000_000)| <= rpm[p])
            <==> 60_000_000_000 % rpm[p] == 0
  {
    CapKeptExactly(rpm[p]);
    assert Gap(intervals, p) == MINUTE / rpm[p];
    if MINUTE % rpm[p] == 0 {
      forall nows, from ensures |StartsWithin(nows, Gap(intervals, p), from, 60_000_000_000)| <= rpm[p] {
        assert |StartsWithin(nows, MINUTE / rpm[p], from, MINUTE)| <= rpm[p];
      }
    } else {
      var nows, from :| |StartsWithin(nows, MINUTE / rpm[p], from, MINUTE)| > rpm[p];
      assert |StartsWithin(nows, Gap(intervals, p), from, 60_000_000_000)| > rpm[p];
    }
  }

  /** The calls that start in the minute from an instant on. */
  ghost function InMinute(starts: seq<nat>, from: int): set<nat> {
    set k: nat | k < |starts| && from <= starts[k] < from + 60_000_000_000
  }

  /**
    * The calls to one provider of a new limiter. Whatever their arrivals, a cap that divides a minute is kept in
    * every minute; one that does not is broken by calls that all arrive at once.
    */
  method StartCalls(rpm: map<string, int>, p: string, nows: seq<nat>) returns (starts: seq<nat>)
    ensures |starts| == |nows| && forall k | 0 <= k < |nows| :: starts[k] >= nows[k]
    ensures !(p in rpm && rpm[p] > 0) ==> starts == nows
    ensures p in rpm && rpm[p] > 0 && 60_000_000_000 % rpm[p] == 0 ==>
      forall from :: |InMinute(starts, from)| <= rpm[p]
    ensures p in rpm && rpm[p] > 0 && 60_000_000_000 % rpm[p] != 0
            && |nows| == rpm[p] + 1 && (forall k | 0 <= k < |nows| :: nows[k] == 0) ==>
      forall k | 0 <= k < |starts| :: 0 <= starts[k] < 60_000_000_000
  {
    var l := NewProviderLimiter(rpm);
    if l == null {
      return nows;
    }
    starts := [];
    for i := 0 to |nows|
      invariant l.Valid() && fresh(l) && ArrivalsAt(l.arrivals, p) == nows[..i] && |starts| == i
      invariant forall k | 0 <= k < i :: starts[k] == Start(nows, Gap(l.intervals, p), k)
    {
      var start := l.Reserve(p, nows[i]);
      assert nows[..i] + [nows[i]] == nows[..i + 1] && nows[..i + 1][..i + 1] == nows[..i + 1];
      starts := starts + [start];
    }
    if p in rpm && rpm[p] > 0 {
      StartsKeepCap(rpm, l.intervals, p, nows, starts);
    }
    forall k | 0 <= k < |nows| ensures starts[k] >= nows[k] {
      assert nows[..k + 1][k] == nows[k];
    }
  }

  lemma StartsKeepCap(rpm: map<string, int>, intervals: map<string, nat>, p: string, nows: seq<nat>, starts: seq<nat>)
    requires BuiltFrom(intervals, rpm) && p in rpm && rpm[p] > 0
    requires |starts| == |nows| && forall k | 0 <= k < |nows| :: starts[k] == Start(nows, Gap(intervals, p), k)
    ensures 60_000_000_000 % rpm[p] == 0 ==>
      forall from :: |InMinute(starts, from)| <= rpm[p]
    ensures 60_000_000_000 % rpm[p] != 0 && |nows| == rpm[p] + 1 && (forall k | 0 <= k < |nows| :: nows[k] == 0) ==>
      forall k | 0 <= k < |starts| :: 0 <= starts[k] < 60_000_000_000
  {
    if 60_000_000_000 % rpm[p] == 0 {
      BuiltKeepsCapExactly(rpm, intervals, p);
      forall from ensures |InMinute(starts, from)| <= rpm[p] {
        assert InMinute(starts, from) == StartsWithin(nows, Gap(intervals, p), from, 60_000_000_000);
      }
    } else if |nows| == rpm[p] + 1 && forall k | 0 <= k < |nows| :: nows[k] == 0 {
      forall k | 0 <= k < |starts| ensures starts[k] < 60_000_000_000 {
        KthInMinute(nows, rpm[p], k);
      }
    }
  }
}
