/** Folding rows into per-(user, torrent) groups, the unit that occupies one slot. */
module Grouping {
  import opened Strconv
  import opened Sorting
  import opened Ranking

  datatype Group = Group(key: string, userId: int, members: seq<Download>)

  /** Rows without a hash yet are keyed by their own id. */
  function GrpKey(userId: int, id: int, infoHash: string): string {
    if infoHash == "" then Itoa(userId) + ":id:" + Itoa(id) else Itoa(userId) + ":" + infoHash
  }

  function KeyOf(d: Download): string {
    GrpKey(d.userId, d.id, d.infoHash)
  }

  /** What sharing a key is meant to say: one user's rows of one torrent. */
  predicate SameTorrent(a: Download, b: Download) {
    a.userId == b.userId && a.infoHash == b.infoHash && (a.infoHash == "" ==> a.id == b.id)
  }

  /** The hash of `b` spells out the key suffix of the hashless row `a`. */
  predicate HashImitatesId(a: Download, b: Download) {
    a.userId == b.userId && a.infoHash == "" && b.infoHash == "id:" + Itoa(a.id)
  }

  /** Keys agree on one user's rows of one torrent, and otherwise only on a hash that spells "id:<n>". */
  lemma KeysAgreeExactly(a: Download, b: Download)
    ensures KeyOf(a) == KeyOf(b) <==> SameTorrent(a, b) || HashImitatesId(a, b) || HashImitatesId(b, a)
  {
    var s := if a.infoHash == "" then "id:" + Itoa(a.id) else a.infoHash;
    var t := if b.infoHash == "" then "id:" + Itoa(b.id) else b.infoHash;
    var ka, kb := Itoa(a.userId) + [':'] + s, Itoa(b.userId) + [':'] + t;
    assert KeyOf(a) == ka by {
      assert "" + ":id:" == [':'] + "id:";
      assert a.infoHash == "" ==> ka == Itoa(a.userId) + ":id:" + Itoa(a.id);
    }
    assert KeyOf(b) == kb by {
      assert b.infoHash == "" ==> kb == Itoa(b.userId) + ":id:" + Itoa(b.id);
    }
    if ka == kb {
      FirstSplitUnique(Itoa(a.userId), s, Itoa(b.userId), t, ':');
      ItoaInjective(a.userId, b.userId);
      if a.infoHash == "" && b.infoHash == "" {
        assert Itoa(a.id) == s[3..] == t[3..] == Itoa(b.id);
        ItoaInjective(a.id, b.id);
      }
    }
  }

  /** Rows with one key always belong to one user. */
  lemma KeyFixesUser(a: Download, b: Download)
    requires KeyOf(a) == KeyOf(b)
    ensures a.userId == b.userId
  {
    KeysAgreeExactly(a, b);
  }

  /** The rows of `items` with key `k`, in their order. */
  function MembersOf(items: seq<Download>, k: string): (ms: seq<Download>)
    ensures forall m :: m in ms <==> m in items && KeyOf(m) == k
  {
    if items == [] then []
    else
      assert items == items[..|items| - 1] + [items[|items| - 1]];
      var rest := MembersOf(items[..|items| - 1], k);
      if KeyOf(items[|items| - 1]) == k then rest + [items[|items| - 1]] else rest
  }

  /** The keys of `items`, each once, by first appearance. */
  function Keys(items: seq<Download>): (ks: seq<string>)
    ensures NoDup(ks)
  {
    if items == [] then []
    else
      var init, last := items[..|items| - 1], items[|items| - 1];
      var ks := Keys(init);
      if KeyOf(last) in ks then ks else ks + [KeyOf(last)]
  }

  lemma {:induction false} KeysExact(items: seq<Download>, k: string)
    ensures k in Keys(items) <==> MembersOf(items, k) != []
  {
    if items != [] {
      KeysExact(items[..|items| - 1], k);
    }
  }

  function GroupFor(items: seq<Download>, k: string): (g: Group)
    requires k in Keys(items)
    ensures g.key == k && |g.members| > 0
  {
    KeysExact(items, k);
    var ms := MembersOf(items, k);
    Group(k, ms[0].userId, ms)
  }

  function Groups(items: seq<Download>): (gs: seq<Group>)
    ensures |gs| == |Keys(items)|
    ensures forall i | 0 <= i < |gs| :: gs[i] == GroupFor(items, Keys(items)[i])
  {
    var ks := Keys(items);
    seq(|ks|, i requires 0 <= i < |ks| => GroupFor(items, ks[i]))
  }

  lemma Append(items: seq<Download>, d: Download, k: string)
    ensures Keys(items + [d]) == if KeyOf(d) in Keys(items) then Keys(items) else Keys(items) + [KeyOf(d)]
    ensures MembersOf(items + [d], k) == if KeyOf(d) == k then MembersOf(items, k) + [d] else MembersOf(items, k)
  {
    assert (items + [d])[..|items|] == items;
  }

  /** What the grouping loop has built after reading `items`. */
  ghost predicate Folded(items: seq<Download>, order: seq<string>, byKey: map<string, Group>) {
    order == Keys(items) && byKey.Keys == Elems(order) && forall k <- order :: byKey[k] == GroupFor(items, k)
  }

  lemma FoldKnownKey(items: seq<Download>, d: Download, order: seq<string>, byKey: map<string, Group>)
    requires Folded(items, order, byKey)
    requires KeyOf(d) in byKey
    ensures var k := KeyOf(d);
            Folded(items + [d], order, byKey[k := Group(k, byKey[k].userId, byKey[k].members + [d])])
  {
    var k := KeyOf(d);
    var next := byKey[k := Group(k, byKey[k].userId, byKey[k].members + [d])];
    Append(items, d, k);
    assert k in order;
    assert Keys(items + [d]) == order;
    forall q | q in order ensures q in Keys(items + [d]) && next[q] == GroupFor(items + [d], q) {
      GroupGrows(items, d, q);
    }
  }

  /** A further row joins the group of its key. */
  lemma GroupGrows(items: seq<Download>, d: Download, q: string)
    requires q in Keys(items)
    ensures q in Keys(items + [d])
    ensures var g := GroupFor(items, q);
            GroupFor(items + [d], q) == if KeyOf(d) == q then Group(q, g.userId, g.members + [d]) else g
  {
    Append(items, d, q);
    KeysExact(items, q);
  }

  lemma FoldNewKey(items: seq<Download>, d: Download, order: seq<string>, byKey: map<string, Group>)
    requires Folded(items, order, byKey)
    requires KeyOf(d) !in byKey
    ensures var k := KeyOf(d);
            Folded(items + [d], order + [k], byKey[k := Group(k, d.userId, [])][k := Group(k, d.userId, [] + [d])])
  {
    var k := KeyOf(d);
    Append(items, d, k);
    KeysExact(items, k);
    forall q | q in order ensures GroupFor(items + [d], q) == GroupFor(items, q) {
      GroupGrows(items, d, q);
    }
  }

  method GroupRows(items: seq<Download>) returns (out: seq<Group>)
    ensures out == Groups(items)
  {
    var order: seq<string> := [];
    var byKey: map<string, Group> := map[];
    for n := 0 to |items|
      invariant Folded(items[..n], order, byKey)
    {
      var d := items[n];
      var k := KeyOf(d);
      assert items[..n + 1] == items[..n] + [d];
      if k !in byKey {
        FoldNewKey(items[..n], d, order, byKey);
        byKey := byKey[k := Group(k, d.userId, [])];
        order := order + [k];
      } else {
        FoldKnownKey(items[..n], d, order, byKey);
      }
      byKey := byKey[k := Group(k, byKey[k].userId, byKey[k].members + [d])];
    }
    assert items[..|items|] == items;
    out := [];
    for i := 0 to |order|
      invariant |out| == i
      invariant forall j | 0 <= j < i :: out[j] == byKey[order[j]]
    {
      out := out + [byKey[order[i]]];
    }
  }

  function Flatten(gs: seq<Group>): seq<Download> {
    if gs == [] then [] else Flatten(gs[..|gs| - 1]) + gs[|gs| - 1].members
  }

  /** All rows of the listed keys, group after group. */
  function RowsUnder(items: seq<Download>, ks: seq<string>): seq<Download> {
    if ks == [] then [] else RowsUnder(items, ks[..|ks| - 1]) + MembersOf(items, ks[|ks| - 1])
  }

  lemma {:induction false} RowsUnderAppend(items: seq<Download>, d: Download, ks: seq<string>)
    requires NoDup(ks)
    ensures multiset(RowsUnder(items + [d], ks)) ==
            multiset(RowsUnder(items, ks)) + (if KeyOf(d) in ks then multiset{d} else multiset{})
  {
    if ks != [] {
      var init, k := ks[..|ks| - 1], ks[|ks| - 1];
      assert ks == init + [k];
      assert k !in init;
      RowsUnderAppend(items, d, init);
      assert (items + [d])[..|items|] == items;
    }
  }

  lemma {:induction false} RowsUnderKeys(items: seq<Download>)
    ensures multiset(RowsUnder(items, Keys(items))) == multiset(items)
  {
    if items != [] {
      var init, last := items[..|items| - 1], items[|items| - 1];
      assert items == init + [last];
      RowsUnderKeys(init);
      var ks, k := Keys(init), KeyOf(last);
      Append(init, last, k);
      KeysExact(init, k);
      RowsUnderAppend(init, last, ks);
      assert (ks + [k])[..|ks|] == ks;
    }
  }

  lemma {:induction false} FlattenRowsUnder(items: seq<Download>, n: nat)
    requires n <= |Groups(items)|
    ensures Flatten(Groups(items)[..n]) == RowsUnder(items, Keys(items)[..n])
  {
    if n > 0 {
      FlattenRowsUnder(items, n - 1);
      assert Groups(items)[..n][..n - 1] == Groups(items)[..n - 1];
      assert Keys(items)[..n][..n - 1] == Keys(items)[..n - 1];
    }
  }

  lemma {:induction false} MembersKeepOrder(items: seq<Download>, k: string, i: nat, j: nat)
    requires i < j < |items| && KeyOf(items[i]) == KeyOf(items[j]) == k
    ensures exists p, q :: 0 <= p < q < |MembersOf(items, k)|
                           && MembersOf(items, k)[p] == items[i] && MembersOf(items, k)[q] == items[j]
  {
    var init := items[..|items| - 1];
    var ms := MembersOf(items, k);
    if j < |items| - 1 {
      MembersKeepOrder(init, k, i, j);
      var p, q :| 0 <= p < q < |MembersOf(init, k)|
        && MembersOf(init, k)[p] == items[i] && MembersOf(init, k)[q] == items[j];
      assert ms[p] == items[i] && ms[q] == items[j];
    } else {
      assert init[i] in MembersOf(init, k);
      var p :| 0 <= p < |MembersOf(init, k)| && MembersOf(init, k)[p] == items[i];
      assert ms[p] == items[i] && ms[|ms| - 1] == items[j];
    }
  }

  /**
    * `GroupRows` partitions its input: the groups laid end to end are a permutation of the rows,
    * two rows share a group exactly when they share a key, and rows of a group keep their order.
    */
  lemma GroupRowsPartitions(items: seq<Download>)
    ensures multiset(Flatten(Groups(items))) == multiset(items)
    ensures forall i, j | 0 <= i < j < |Groups(items)| :: Groups(items)[i].key != Groups(items)[j].key
    ensures forall g, d | g in Groups(items) :: d in g.members <==> d in items && KeyOf(d) == g.key
    ensures forall g, i, j | g in Groups(items) && 0 <= i < j < |items| && items[i] in g.members && items[j] in g.members ::
              exists p, q :: 0 <= p < q < |g.members| && g.members[p] == items[i] && g.members[q] == items[j]
  {
    FlattenRowsUnder(items, |Groups(items)|);
    assert Groups(items)[..|Groups(items)|] == Groups(items) && Keys(items)[..|Keys(items)|] == Keys(items);
    RowsUnderKeys(items);
    forall g, i, j | g in Groups(items) && 0 <= i < j < |items| && items[i] in g.members && items[j] in g.members
      ensures exists p, q :: 0 <= p < q < |g.members| && g.members[p] == items[i] && g.members[q] == items[j]
    {
      MembersKeepOrder(items, g.key, i, j);
    }
  }
}
