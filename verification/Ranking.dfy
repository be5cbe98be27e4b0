/** Download rows and the order in which the scheduler ranks them. */
module Ranking {
  import opened Options
  import opened Quantities
  import opened Sorting

  datatype Status = Queued | Downloading | Moving | Completed | Failed | Paused

  const PRIORITY_HIGH := "high"
  const PRIORITY_LOW := "low"
  const WHOLE_TORRENT := -2

  /** The columns of a `downloads` row that scheduling reads. */
  datatype Download = Download(
    id: int, userId: int, infoHash: string, fileIndex: int, priority: string,
    status: Status, stalls: int, queuedSince: Option<int>, createdAt: int)

  datatype Settings = Settings(maxActive: int, perUserMax: int, agingStepMin: int, agingCap: int)

  function PriorityBase(p: string): (b: int)
    ensures 1 <= b <= 3
  {
    if p == PRIORITY_HIGH then 3 else if p == PRIORITY_LOW then 1 else 2
  }

  /** One point per `agingStepMin` whole minutes of waiting, never above `agingCap`. */
  function AgingBonus(d: Download, st: Settings, now: int): (b: int)
    ensures 0 <= b
    ensures b > 0 ==> st.agingStepMin > 0 && b <= st.agingCap
    ensures b > 0 ==> d.queuedSince.Some? && d.queuedSince.value < now
  {
    if st.agingStepMin <= 0 || st.agingCap <= 0 || d.queuedSince.None? then 0
    else
      var ageMin := (now - d.queuedSince.value) / MINUTE;
      if ageMin <= 0 then 0
      else if ageMin / st.agingStepMin > st.agingCap then st.agingCap
      else ageMin / st.agingStepMin
  }

  /** Exactly one point for each whole step waited, up to the cap. */
  lemma AgingBonusSteps(d: Download, st: Settings, now: int, k: nat)
    requires st.agingStepMin > 0 && st.agingCap > 0 && d.queuedSince.Some?
    requires k * st.agingStepMin * 60_000_000_000 <= now - d.queuedSince.value < (k + 1) * st.agingStepMin * 60_000_000_000
    ensures AgingBonus(d, st, now) == if k < st.agingCap then k else st.agingCap
  {
    var waited := now - d.queuedSince.value;
    QuotientIs(waited, 60_000_000_000, st.agingStepMin, k);
  }

  lemma LessByFactor(x: int, y: int, a: int)
    requires a > 0 && x * a < y * a
    ensures x < y
  {
    assert x * a == y * a + (x - y) * a;
  }

  /** Dividing twice counts the steps. */
  lemma QuotientIs(t: int, a: int, b: int, k: int)
    requires a > 0 && b > 0 && k * b * a <= t < (k + 1) * b * a
    ensures (t / a) / b == k
  {
    var n := t / a;
    var q := n / b;
    assert t == n * a + t % a && n == q * b + n % b;
    assert (n + 1) * a == n * a + a && (q + 1) * b == q * b + b;
    LessByFactor(k * b, n + 1, a);
    LessByFactor(n, (k + 1) * b, a);
    LessByFactor(k, q + 1, b);
    LessByFactor(q, k + 1, b);
  }

  function QueuedAt(d: Download): int {
    if d.queuedSince.Some? then d.queuedSince.value else d.createdAt
  }

  function Score(d: Download, st: Settings, now: int): int {
    PriorityBase(d.priority) * 1000 + AgingBonus(d, st, now)
  }

  predicate PromotionLess(a: Download, b: Download, st: Settings, now: int) {
    var sa, sb := Score(a, st, now), Score(b, st, now);
    if sa != sb then sa > sb
    else if a.stalls != b.stalls then a.stalls < b.stalls
    else if QueuedAt(a) != QueuedAt(b) then QueuedAt(a) < QueuedAt(b)
    else a.id < b.id
  }

  predicate GroupMemberStronger(a: Download, b: Download, st: Settings, now: int) {
    var pa, pb := PriorityBase(a.priority), PriorityBase(b.priority);
    if pa != pb then pa > pb else PromotionLess(a, b, st, now)
  }

  ghost predicate DistinctIds(rows: seq<Download>) {
    forall i, j | 0 <= i < j < |rows| :: rows[i].id != rows[j].id
  }

  /** Irreflexive, transitive, and deciding between any two different members of `s`. */
  ghost predicate StrictTotalOrderOn(s: set<Download>, less: (Download, Download) -> bool) {
    && (forall a | a in s :: !less(a, a))
    && (forall a, b, c | a in s && b in s && c in s && less(a, b) && less(b, c) :: less(a, c))
    && (forall a, b | a in s && b in s && a != b :: less(a, b) || less(b, a))
  }

  /** Both rankings are strict total orders on any rows with distinct ids, at any instant. */
  lemma RankingsAreTotalOrders(rows: seq<Download>, st: Settings, now: int)
    requires DistinctIds(rows)
    ensures StrictTotalOrderOn(Elems(rows), (a, b) => PromotionLess(a, b, st, now))
    ensures StrictTotalOrderOn(Elems(rows), (a, b) => GroupMemberStronger(a, b, st, now))
  {
    forall a, b | a in rows && b in rows && a != b ensures a.id != b.id {
      var i, j :| 0 <= i < |rows| && 0 <= j < |rows| && rows[i] == a && rows[j] == b;
      assert i < j || j < i;
    }
  }

  /** With bonuses below the tier gap, the promotion order never puts a lower tier first. */
  lemma PromotionRespectsTiers(a: Download, b: Download, st: Settings, now: int)
    requires st.agingStepMin <= 0 || st.agingCap < 1000
    requires !PromotionLess(b, a, st, now)
    ensures PriorityBase(a.priority) >= PriorityBase(b.priority)
  {
    assert AgingBonus(a, st, now) < 1000 && AgingBonus(b, st, now) < 1000;
  }

  lemma NotLessMeans(u: Download, c: Download, st: Settings, now: int)
    requires !PromotionLess(u, c, st, now)
    ensures InOrder(c, u, st, now)
  {
  }

  /** `u` does not beat `c` on score, then stalls, then waiting time, then id. */
  ghost predicate InOrder(c: Download, u: Download, st: Settings, now: int) {
    var sc := PriorityBase(c.priority) * 1000 + AgingBonus(c, st, now);
    var su := PriorityBase(u.priority) * 1000 + AgingBonus(u, st, now);
    var qc := if c.queuedSince.Some? then c.queuedSince.value else c.createdAt;
    var qu := if u.queuedSince.Some? then u.queuedSince.value else u.createdAt;
    || su < sc
    || (su == sc && u.stalls > c.stalls)
    || (su == sc && u.stalls == c.stalls && qu > qc)
    || (su == sc && u.stalls == c.stalls && qu == qc && u.id >= c.id)
  }

  /** The row a left-to-right scan keeps, replacing it by any stronger one it meets. */
  function RepresentativeOf(members: seq<Download>, st: Settings, now: int): (rep: Download)
    requires |members| > 0
    ensures rep in members
    ensures forall m <- members :: !GroupMemberStronger(m, rep, st, now)
    ensures forall m <- members :: PriorityBase(m.priority) <= PriorityBase(rep.priority)
  {
    var last := members[|members| - 1];
    if |members| == 1 then last
    else
      var rep := RepresentativeOf(members[..|members| - 1], st, now);
      assert members == members[..|members| - 1] + [last];
      if GroupMemberStronger(last, rep, st, now) then last else rep
  }

  /** It is the best of those of the group's highest priority, as the waiting order has it. */
  lemma RepresentativeBest(members: seq<Download>, st: Settings, now: int)
    requires |members| > 0
    ensures var rep := RepresentativeOf(members, st, now);
      forall m <- members :: PriorityBase(m.priority) < PriorityBase(rep.priority)
                             || (PriorityBase(m.priority) == PriorityBase(rep.priority) && InOrder(rep, m, st, now))
  {
    var rep := RepresentativeOf(members, st, now);
    forall m | m in members && PriorityBase(m.priority) == PriorityBase(rep.priority) ensures InOrder(rep, m, st, now) {
      assert !GroupMemberStronger(m, rep, st, now);
      NotLessMeans(m, rep, st, now);
    }
  }

  predicate AnyDownloading(members: seq<Download>) {
    exists m <- members :: m.status == Downloading
  }

  /** The representative does not depend on the order the members are listed in. */
  lemma RepresentativeOrderFree(xs: seq<Download>, ys: seq<Download>, st: Settings, now: int)
    requires |xs| > 0 && DistinctIds(xs)
    requires multiset(xs) == multiset(ys)
    ensures |ys| > 0
    ensures RepresentativeOf(xs, st, now) == RepresentativeOf(ys, st, now)
  {
    assert |multiset(xs)| == |multiset(ys)|;
    var x, y := RepresentativeOf(xs, st, now), RepresentativeOf(ys, st, now);
    assert x in multiset(ys) && y in multiset(xs);
    assert !GroupMemberStronger(x, y, st, now) && !GroupMemberStronger(y, x, st, now);
    var i, j :| 0 <= i < |xs| && 0 <= j < |xs| && xs[i] == x && xs[j] == y;
    assert i < j || j < i || i == j;
  }

  lemma AnyStep(members: seq<Download>, i: nat)
    requires i < |members|
    ensures AnyDownloading(members[..i + 1]) <==> AnyDownloading(members[..i]) || members[i].status == Downloading
  {
    assert members[..i + 1] == members[..i] + [members[i]];
  }

  method Representative(members: seq<Download>, st: Settings, now: int) returns (rep: Download, downloading: bool)
    requires |members| > 0
    ensures rep == RepresentativeOf(members, st, now)
    ensures downloading == AnyDownloading(members)
  {
    rep, downloading := members[0], false;
    for i := 0 to |members|
      invariant i == 0 ==> rep == members[0]
      invariant i > 0 ==> rep == RepresentativeOf(members[..i], st, now)
      invariant downloading == AnyDownloading(members[..i])
    {
      var m := members[i];
      AnyStep(members, i);
      if m.status == Downloading {
        downloading := true;
      }
      if i > 0 && GroupMemberStronger(m, rep, st, now) {
        rep := m;
      }
      assert members[..i + 1][..i] == members[..i];
    }
    assert members[..|members|] == members;
  }
}
