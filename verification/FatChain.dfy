/**
Cluster chains over the abstract FAT: what allocating and freeing clusters means, and how
the number of free clusters follows. A FAT is a sequence f; clusters are 2 .. |f|-1; an
entry 0 is a free cluster and an entry >= |f| ends a chain.
*/
module FatChain {

  /** c lists the clusters of a chain from its first cluster to its end mark. */
  ghost predicate IsChain(f: seq<nat>, c: seq<nat>) {
    && |c| > 0
    && (forall i :: 0 <= i < |c| ==> 2 <= c[i] < |f|)
    && (forall i {:trigger f[c[i]]} :: 0 <= i < |c| - 1 ==> f[c[i]] == c[i + 1])
    && f[c[|c| - 1]] >= |f|
  }

  /** The FAT holds exactly the chains cs: pairwise disjoint, and every used entry is in one. */
  ghost predicate Partitioned(f: seq<nat>, cs: seq<seq<nat>>) {
    && (forall i :: 0 <= i < |cs| ==> IsChain(f, cs[i]))
    && (forall i, j, x :: 0 <= i < |cs| && 0 <= j < |cs| && x in cs[i] && x in cs[j] ==> i == j)
    && (forall x :: 2 <= x < |f| && f[x] != 0 ==> InSome(cs, x))
  }

  ghost predicate Disjoint(c: seq<nat>, d: seq<nat>) {
    forall x :: x in c ==> x !in d
  }

  ghost predicate InSome(cs: seq<seq<nat>>, x: int) {
    exists i :: 0 <= i < |cs| && x in cs[i]
  }

  ghost predicate NoFree(f: seq<nat>) {
    forall x :: 2 <= x < |f| ==> f[x] != 0
  }

  /** Some entry holds 1, which no chain contains: get_fat reports it as an internal error. */
  ghost predicate Corrupt(f: seq<nat>) {
    exists x :: 2 <= x < |f| && f[x] == 1
  }

  /** The FAT after cluster ncl is taken and linked from clst (0: a new chain). */
  function Linked(f: seq<nat>, ncl: nat, clst: nat, eoc: nat): (g: seq<nat>)
    requires ncl < |f| && clst < |f|
  {
    if clst == 0 then f[ncl := eoc] else f[ncl := eoc][clst := ncl]
  }

  /** The FAT with the clusters of c marked free. */
  function Zeroed(f: seq<nat>, c: seq<nat>): (g: seq<nat>)
    ensures |g| == |f|
  {
    seq(|f|, x requires 0 <= x < |f| => if x in c then 0 else f[x])
  }

  function NonZero(f: seq<nat>): set<nat> {
    set x | 0 <= x < |f| && f[x] != 0
  }

  /** The free clusters. */
  function Free(f: seq<nat>): set<nat> {
    set x | 2 <= x < |f| && f[x] == 0
  }

  /** free_clst is the number of free clusters, or out of range, which means unknown. */
  ghost predicate Counted(f: seq<nat>, free: nat) {
    free == |Free(f)| || free > |f| - 2
  }

  lemma {:induction false} FreeBound(f: seq<nat>)
    requires |f| >= 2
    ensures |Free(f)| <= |f| - 2
  {
    if |f| == 2 {
      assert Free(f) == {};
    } else {
      var n := |f| - 1;
      FreeBound(f[..n]);
      assert Free(f) - {n} == Free(f[..n]);
    }
  }

  lemma NoneCounted(f: seq<nat>)
    ensures |Free(f)| == 0 <==> NoFree(f)
  {
    if NoFree(f) {
      assert Free(f) == {};
    } else {
      var x :| 2 <= x < |f| && f[x] == 0;
      assert x in Free(f);
    }
  }

  lemma TakeCount(f: seq<nat>, x: nat, v: nat)
    requires 2 <= x < |f| && f[x] == 0 && v != 0
    ensures |Free(f[x := v])| == |Free(f)| - 1
  {
    assert Free(f) == Free(f[x := v]) + {x};
  }

  lemma ReleaseCount(f: seq<nat>, x: nat)
    requires 2 <= x < |f| && f[x] != 0
    ensures |Free(f[x := 0])| == |Free(f)| + 1
    ensures |Free(f)| < |f| - 2
  {
    assert Free(f[x := 0]) == Free(f) + {x};
    FreeBound(f[x := 0]);
  }

  lemma RelinkCount(f: seq<nat>, x: nat, v: nat)
    requires x < |f| && f[x] != 0 && v != 0
    ensures Free(f[x := v]) == Free(f)
  {}

  lemma ReleaseShrinks(f: seq<nat>, x: nat)
    requires x < |f| && f[x] != 0
    ensures |NonZero(f[x := 0])| < |NonZero(f)|
  {
    assert NonZero(f) == NonZero(f[x := 0]) + {x};
  }

  // ---- Chains have no cycles -------------------------------------------------------

  lemma {:induction false} Advance(f: seq<nat>, c: seq<nat>, i: nat, j: nat, k: nat)
    requires IsChain(f, c) && i <= j && j + k < |c| && c[i] == c[j]
    ensures c[i + k] == c[j + k]
  {
    if k > 0 {
      Advance(f, c, i, j, k - 1);
      assert f[c[i + k - 1]] == c[i + k] && f[c[j + k - 1]] == c[j + k];
    }
  }

  /** A chain never visits a cluster twice. */
  lemma Acyclic(f: seq<nat>, c: seq<nat>, i: nat, j: nat)
    requires IsChain(f, c) && i < j < |c|
    ensures c[i] != c[j]
  {
    var k := |c| - 1 - j;
    assert f[c[i + k]] == c[i + k + 1];
    if c[i] == c[j] {
      Advance(f, c, i, j, k);
      assert false;
    }
  }

  lemma Suffix(f: seq<nat>, c: seq<nat>, k: nat)
    requires IsChain(f, c) && k < |c|
    ensures IsChain(f, c[k..])
  {
    var d := c[k..];
    forall i | 0 <= i < |d| - 1
      ensures f[d[i]] == d[i + 1]
    {
      assert f[c[k + i]] == c[k + i + 1];
    }
  }

  /** A chain survives a change of entries it does not contain. */
  lemma Untouched(f: seq<nat>, g: seq<nat>, c: seq<nat>)
    requires IsChain(f, c) && |g| == |f|
    requires forall i :: 0 <= i < |c| ==> g[c[i]] == f[c[i]]
    ensures IsChain(g, c)
  {}

  // ---- Allocation ------------------------------------------------------------------

  /** Taking a free cluster after the tail of a chain appends it to that chain. */
  lemma AppendCluster(f: seq<nat>, c: seq<nat>, ncl: nat, eoc: nat)
    requires IsChain(f, c) && 2 <= ncl < |f| && f[ncl] == 0 && eoc >= |f|
    ensures IsChain(Linked(f, ncl, c[|c| - 1], eoc), c + [ncl])
    ensures ncl !in c
  {
    var g, d := Linked(f, ncl, c[|c| - 1], eoc), c + [ncl];
    forall i | 0 <= i < |c|
      ensures c[i] != ncl && (i < |c| - 1 ==> c[i] != c[|c| - 1])
    {
      assert f[c[i]] != 0;
      if i < |c| - 1 {
        Acyclic(f, c, i, |c| - 1);
      }
    }
    forall i | 0 <= i < |d| - 1
      ensures g[d[i]] == d[i + 1]
    {
      assert i < |c| - 1 ==> f[c[i]] == c[i + 1];
    }
  }

  /** Other chains do not see the allocation. */
  lemma AllocationFrame(f: seq<nat>, ncl: nat, clst: nat, eoc: nat, d: seq<nat>)
    requires IsChain(f, d) && 2 <= ncl < |f| && clst < |f| && f[ncl] == 0 && eoc >= |f|
    requires clst !in d || clst == 0
    ensures ncl !in d && IsChain(Linked(f, ncl, clst, eoc), d)
  {
    forall i | 0 <= i < |d|
      ensures d[i] != ncl && d[i] != clst
    {
      assert f[d[i]] != 0;
      assert d[i] in d;
    }
    Untouched(f, Linked(f, ncl, clst, eoc), d);
  }

  /** create_chain on a FAT made of chains: chain k grows by one cluster. */
  lemma PartitionAppend(f: seq<nat>, cs: seq<seq<nat>>, k: nat, ncl: nat, eoc: nat)
    requires Partitioned(f, cs) && k < |cs|
    requires 2 <= ncl < |f| && f[ncl] == 0 && eoc >= |f|
    ensures Partitioned(Linked(f, ncl, cs[k][|cs[k]| - 1], eoc), cs[k := cs[k] + [ncl]])
  {
    var t := cs[k][|cs[k]| - 1];
    var g, d := Linked(f, ncl, t, eoc), cs[k] + [ncl];
    var ds := cs[k := d];
    AppendCluster(f, cs[k], ncl, eoc);
    assert t in cs[k];
    forall i | 0 <= i < |cs| && i != k
      ensures IsChain(g, ds[i]) && ncl !in ds[i]
    {
      AllocationFrame(f, ncl, t, eoc, cs[i]);
    }
    assert IsChain(g, ds[k]);
    forall x | 2 <= x < |g| && g[x] != 0
      ensures InSome(ds, x)
    {
      Owner(f, cs, ds, x, ncl, k);
    }
  }

  /** A used cluster, or the one just taken for chain k, is owned after the allocation. */
  lemma Owner(f: seq<nat>, cs: seq<seq<nat>>, ds: seq<seq<nat>>, x: int, ncl: nat, k: nat)
    requires 2 <= x < |f| && (x == ncl || (f[x] != 0 && InSome(cs, x)))
    requires k < |ds| && ncl in ds[k] && |cs| <= |ds|
    requires forall i :: 0 <= i < |cs| ==> cs[i] <= ds[i]
    ensures InSome(ds, x)
  {
    if x == ncl {
      assert x in ds[k];
    } else {
      var i :| 0 <= i < |cs| && x in cs[i];
      assert x in ds[i];
    }
  }

  /** create_chain on a FAT made of chains: one new chain of one cluster. */
  lemma PartitionNew(f: seq<nat>, cs: seq<seq<nat>>, ncl: nat, eoc: nat)
    requires Partitioned(f, cs)
    requires 2 <= ncl < |f| && f[ncl] == 0 && eoc >= |f|
    ensures Partitioned(Linked(f, ncl, 0, eoc), cs + [[ncl]])
  {
    var g, ds := Linked(f, ncl, 0, eoc), cs + [[ncl]];
    forall i | 0 <= i < |cs|
      ensures IsChain(g, ds[i]) && ncl !in ds[i]
    {
      AllocationFrame(f, ncl, 0, eoc, cs[i]);
    }
    assert IsChain(g, ds[|cs|]);
    forall x | 2 <= x < |g| && g[x] != 0
      ensures InSome(ds, x)
    {
      Owner(f, cs, ds, x, ncl, |cs|);
    }
  }

  // ---- Removal ---------------------------------------------------------------------

  datatype Removal = Removal(fat: seq<nat>, ok: bool)

  /** What the removal loop does from cluster clst on, whatever the FAT looks like. */
  function Removed(f: seq<nat>, clst: nat): Removal
    requires 2 <= clst < |f|
    decreases |NonZero(f)|
  {
    var nxt := f[clst];
    if nxt == 0 then Removal(f, true)
    else if nxt == 1 then Removal(f, false)
    else
      ReleaseShrinks(f, clst);
      if nxt < |f| then Removed(f[clst := 0], nxt) else Removal(f[clst := 0], true)
  }

  /** Removing a chain frees exactly its clusters. */
  lemma {:induction false} RemovedChain(f: seq<nat>, c: seq<nat>)
    requires IsChain(f, c)
    ensures Removed(f, c[0]) == Removal(Zeroed(f, c), true)
    decreases |c|
  {
    var g := f[c[0] := 0];
    assert f[c[0]] == if |c| == 1 then f[c[|c| - 1]] else c[1];
    if |c| == 1 {
      assert g == Zeroed(f, c);
    } else {
      var d := c[1..];
      Suffix(f, c, 1);
      forall i | 0 <= i < |d|
        ensures d[i] != c[0]
      {
        Acyclic(f, c, 0, i + 1);
      }
      Untouched(f, g, d);
      RemovedChain(g, d);
      assert c == [c[0]] + d;
      assert Zeroed(g, d) == Zeroed(f, c);
    }
  }

  /** Cutting a chain after a prefix leaves the prefix and a chain that can be removed. */
  lemma CutChain(f: seq<nat>, c: seq<nat>, k: nat, eoc: nat)
    requires IsChain(f, c) && 0 < k < |c| && eoc >= |f|
    ensures IsChain(f[c[k - 1] := eoc], c[..k]) && IsChain(f[c[k - 1] := eoc], c[k..])
    ensures Disjoint(c[..k], c[k..])
  {
    var g := f[c[k - 1] := eoc];
    Suffix(f, c, k);
    forall i | 0 <= i < |c| && i != k - 1
      ensures c[i] != c[k - 1]
    {
      if i < k - 1 { Acyclic(f, c, i, k - 1); } else { Acyclic(f, c, k - 1, i); }
    }
    Untouched(f, g, c[k..]);
    forall i | 0 <= i < k - 1
      ensures g[c[..k][i]] == c[..k][i + 1]
    {
      assert f[c[i]] == c[i + 1];
    }
    forall x | x in c[..k]
      ensures x !in c[k..]
    {
      var i :| 0 <= i < k && c[i] == x;
      if x in c[k..] {
        var j :| k <= j < |c| && c[j] == x;
        Acyclic(f, c, i, j);
        assert false;
      }
    }
  }

  /** remove_chain with a previous cluster: the suffix is freed, the prefix ends there. */
  lemma RemovedSuffix(f: seq<nat>, c: seq<nat>, k: nat, eoc: nat)
    requires IsChain(f, c) && 0 < k < |c| && eoc >= |f|
    ensures var g := Zeroed(f[c[k - 1] := eoc], c[k..]);
            Removed(f[c[k - 1] := eoc], c[k]) == Removal(g, true) && IsChain(g, c[..k])
  {
    var h := f[c[k - 1] := eoc];
    CutChain(f, c, k, eoc);
    RemovedChain(h, c[k..]);
    var g := Zeroed(h, c[k..]);
    forall i | 0 <= i < k
      ensures g[c[..k][i]] == h[c[..k][i]]
    {
      assert c[..k][i] in c[..k];
    }
    Untouched(h, g, c[..k]);
  }

  /** remove_chain on a FAT made of chains: chain k loses the clusters from position m on. */
  lemma PartitionCut(f: seq<nat>, cs: seq<seq<nat>>, k: nat, m: nat, eoc: nat)
    requires Partitioned(f, cs) && k < |cs| && 0 < m < |cs[k]| && eoc >= |f|
    ensures var h := f[cs[k][m - 1] := eoc];
            Removed(h, cs[k][m]) == Removal(Zeroed(h, cs[k][m..]), true) &&
            Partitioned(Zeroed(h, cs[k][m..]), cs[k := cs[k][..m]])
  {
    var c := cs[k];
    RemovedSuffix(f, c, m, eoc);
    var g, ds := Zeroed(f[c[m - 1] := eoc], c[m..]), cs[k := c[..m]];
    forall i | 0 <= i < |cs| && i != k
      ensures IsChain(g, ds[i])
    {
      OtherChain(f, cs, k, i, g);
    }
    assert IsChain(g, ds[k]);
    forall x | 2 <= x < |g| && g[x] != 0
      ensures InSome(ds, x)
    {
      assert x !in c[m..];
      assert x == c[m - 1] || f[x] != 0;
      assert c[m - 1] in c;
      StillOwned(cs, ds, k, m, x);
    }
  }

  lemma StillOwned(cs: seq<seq<nat>>, ds: seq<seq<nat>>, k: nat, m: nat, x: int)
    requires k < |cs| && m <= |cs[k]| && ds == cs[k := cs[k][..m]] && InSome(cs, x) && x !in cs[k][m..]
    ensures InSome(ds, x)
  {
    var i :| 0 <= i < |cs| && x in cs[i];
    assert i == k ==> cs[k] == cs[k][..m] + cs[k][m..];
    assert x in ds[i];
  }

  /** Position in cs of chain i of cs without chain k. */
  function Shift(i: nat, k: nat): nat { if i < k then i else i + 1 }

  lemma OwnedElsewhere(cs: seq<seq<nat>>, k: nat, x: int)
    requires k < |cs| && InSome(cs, x) && x !in cs[k]
    ensures InSome(cs[..k] + cs[k + 1..], x)
  {
    var i :| 0 <= i < |cs| && x in cs[i];
    var ds := cs[..k] + cs[k + 1..];
    assert x in ds[if i < k then i else i - 1];
  }

  /** remove_chain on a FAT made of chains: chain k disappears as a whole. */
  lemma PartitionDrop(f: seq<nat>, cs: seq<seq<nat>>, k: nat)
    requires Partitioned(f, cs) && k < |cs|
    ensures Removed(f, cs[k][0]) == Removal(Zeroed(f, cs[k]), true)
    ensures Partitioned(Zeroed(f, cs[k]), cs[..k] + cs[k + 1..])
  {
    hide IsChain, InSome, Removed;
    RemovedChain(f, cs[k]);
    var g, ds := Zeroed(f, cs[k]), cs[..k] + cs[k + 1..];
    assert forall i: nat :: i < |ds| ==> ds[i] == cs[Shift(i, k)] && Shift(i, k) < |cs|;
    forall i, j, x | 0 <= i < |ds| && 0 <= j < |ds| && x in ds[i] && x in ds[j]
      ensures i == j
    {
      assert x in cs[Shift(i, k)] && x in cs[Shift(j, k)];
    }
    forall i: nat | i < |ds|
      ensures IsChain(g, ds[i])
    {
      OtherChain(f, cs, k, Shift(i, k), g);
    }
    forall x | 2 <= x < |g| && g[x] != 0
      ensures InSome(ds, x)
    {
      OwnedElsewhere(cs, k, x);
    }
  }

  /** Chains other than chain k do not see a change confined to chain k. */
  lemma OtherChain(f: seq<nat>, cs: seq<seq<nat>>, k: nat, i: nat, g: seq<nat>)
    requires Partitioned(f, cs) && k < |cs| && i < |cs| && i != k && |g| == |f|
    requires forall x :: 0 <= x < |f| && x !in cs[k] ==> g[x] == f[x]
    ensures IsChain(g, cs[i])
  {
    var d := cs[i];
    forall j | 0 <= j < |d|
      ensures g[d[j]] == f[d[j]]
    {
      assert d[j] in cs[i];
    }
    Untouched(f, g, d);
  }

  // ---- A chain that grows, or, read backwards, one that is cut --------------------------

  /** c is a chain of f, or no cluster at all. */
  ghost predicate ChainOrNone(f: seq<nat>, c: seq<nat>) { c == [] || IsChain(f, c) }

  /**
  The chain c of the FAT f has become the chain d of the FAT g by taking clusters that were
  free; no other entry differs. With the roles exchanged: the chain d was cut to c.
  */
  ghost predicate Grew(f: seq<nat>, g: seq<nat>, c: seq<nat>, d: seq<nat>) {
    && |g| == |f| && c <= d
    && ChainOrNone(f, c) && ChainOrNone(g, d)
    && (forall x :: 0 <= x < |f| && x !in d ==> g[x] == f[x])
    && (forall i :: |c| <= i < |d| ==> d[i] < |f| && f[d[i]] == 0)
    && |Free(g)| + |d| == |Free(f)| + |c|
  }

  lemma GrewNot(f: seq<nat>, c: seq<nat>)
    requires ChainOrNone(f, c)
    ensures Grew(f, f, c, c)
  {}

  lemma GrewLonger(f: seq<nat>, g: seq<nat>, c: seq<nat>, d: seq<nat>)
    requires Grew(f, g, c, d)
    ensures c <= d && (|c| == |d| ==> c == d)
  {}

  lemma GrewMore(f: seq<nat>, g: seq<nat>, h: seq<nat>, c: seq<nat>, d: seq<nat>, e: seq<nat>)
    requires Grew(f, g, c, d) && Grew(g, h, d, e)
    ensures Grew(f, h, c, e)
  {
    forall i | |c| <= i < |e|
      ensures e[i] < |f| && f[e[i]] == 0
    {
      if i < |d| {
        assert e[i] == d[i];
      } else {
        var x := e[i];
        assert g[x] == 0;
        if x in d {
          InChainUsed(g, d, x);
        }
      }
    }
    forall x | 0 <= x < |f| && x !in e
      ensures h[x] == f[x]
    {
      assert x !in d;
    }
  }

  lemma InChainUsed(f: seq<nat>, c: seq<nat>, x: nat)
    requires IsChain(f, c) && x in c
    ensures 2 <= x < |f| && f[x] >= 2
  {
    var i :| 0 <= i < |c| && c[i] == x;
    assert i < |c| - 1 ==> f[c[i]] == c[i + 1];
  }

  /** create_chain at the end of a chain, or for a new one. */
  lemma GrewByOne(f: seq<nat>, c: seq<nat>, r: nat, eoc: nat)
    requires ChainOrNone(f, c) && 2 <= r < |f| && f[r] == 0 && eoc >= |f|
    ensures Grew(f, Linked(f, r, if c == [] then 0 else c[|c| - 1], eoc), c, c + [r])
  {
    TakeCount(f, r, eoc);
    if c != [] {
      AppendCluster(f, c, r, eoc);
      InChainUsed(f, c, c[|c| - 1]);
      RelinkCount(f[r := eoc], c[|c| - 1], r);
    }
  }

  /** Freeing the clusters of a sequence without repetitions. */
  lemma {:induction false} ZeroedCount(f: seq<nat>, c: seq<nat>)
    requires forall i :: 0 <= i < |c| ==> 2 <= c[i] < |f| && f[c[i]] != 0
    requires forall i, j :: 0 <= i < j < |c| ==> c[i] != c[j]
    ensures |Free(Zeroed(f, c))| == |Free(f)| + |c|
  {
    if c == [] {
      assert Zeroed(f, c) == f;
    } else {
      var n := |c| - 1;
      ZeroedCount(f, c[..n]);
      var g := Zeroed(f, c[..n]);
      assert c[n] !in c[..n];
      ReleaseCount(g, c[n]);
      assert c == c[..n] + [c[n]];
      assert Zeroed(f, c) == g[c[n] := 0];
    }
  }

  lemma ChainUsed(f: seq<nat>, c: seq<nat>)
    requires IsChain(f, c)
    ensures forall i, j :: 0 <= i < j < |c| ==> c[i] != c[j]
    ensures forall i :: 0 <= i < |c| ==> 2 <= c[i] < |f| && f[c[i]] >= 2
  {
    forall i, j | 0 <= i < j < |c|
      ensures c[i] != c[j]
    {
      Acyclic(f, c, i, j);
    }
    forall i | 0 <= i < |c|
      ensures f[c[i]] >= 2
    {
      InChainUsed(f, c, c[i]);
    }
  }

  /** remove_chain of a whole chain undoes its growth from nothing. */
  lemma DropUndoesGrowth(f: seq<nat>, c: seq<nat>)
    requires IsChain(f, c)
    ensures Grew(Zeroed(f, c), f, [], c)
  {
    hide Free;
    ChainUsed(f, c);
    ZeroedCount(f, c);
  }

  /** remove_chain behind the first k clusters of a chain undoes the growth from them. */
  lemma CutUndoesGrowth(f: seq<nat>, c: seq<nat>, k: nat, eoc: nat)
    requires IsChain(f, c) && 0 < k < |c| && eoc >= |f|
    ensures Grew(Zeroed(f[c[k - 1] := eoc], c[k..]), f, c[..k], c)
  {
    hide IsChain, Free, Removed, Zeroed;
    RemovedSuffix(f, c, k, eoc);
    ChainUsed(f, c);
    CutEntries(f, c, k, eoc);
    assert c == c[..k] + c[k..];
  }

  lemma CutEntries(f: seq<nat>, c: seq<nat>, k: nat, eoc: nat)
    requires 0 < k < |c| && eoc > 0
    requires forall i, j :: 0 <= i < j < |c| ==> c[i] != c[j]
    requires forall i :: 0 <= i < |c| ==> 2 <= c[i] < |f| && f[c[i]] >= 2
    ensures var g := Zeroed(f[c[k - 1] := eoc], c[k..]);
            && (forall x :: 0 <= x < |f| && x !in c ==> g[x] == f[x])
            && (forall i :: k <= i < |c| ==> g[c[i]] == 0)
            && |Free(g)| + k == |Free(f)| + |c|
  {
    hide Free;
    var h, s := f[c[k - 1] := eoc], c[k..];
    RelinkCount(f, c[k - 1], eoc);
    assert forall i :: 0 <= i < |s| ==> s[i] == c[k + i] && s[i] != c[k - 1];
    ZeroedCount(h, s);
    var g := Zeroed(h, s);
    forall i | k <= i < |c|
      ensures g[c[i]] == 0
    {
      assert c[i] == s[i - k];
    }
    forall x | 0 <= x < |f| && x !in c
      ensures g[x] == f[x]
    {
      assert x !in s && x != c[k - 1];
    }
  }

  /** Growth neither brings nor removes an entry that get_fat reports as an error. */
  lemma GrewSound(f: seq<nat>, g: seq<nat>, c: seq<nat>, d: seq<nat>)
    requires Grew(f, g, c, d)
    ensures Corrupt(g) <==> Corrupt(f)
  {
    forall x | 2 <= x < |f|
      ensures g[x] == 1 <==> f[x] == 1
    {
      if x in d {
        InChainUsed(g, d, x);
        var i :| 0 <= i < |d| && d[i] == x;
        if i < |c| {
          assert c[i] == x;
          InChainUsed(f, c, x);
        }
      }
    }
  }

  /** Growth takes nothing from another chain. */
  lemma GrewOther(f: seq<nat>, g: seq<nat>, c: seq<nat>, d: seq<nat>, e: seq<nat>)
    requires Grew(f, g, c, d) && IsChain(f, e) && Disjoint(e, c)
    ensures IsChain(g, e) && Disjoint(e, d)
  {
    forall x | x in d
      ensures x in c || f[x] == 0
    {
      var i :| 0 <= i < |d| && d[i] == x;
      assert i < |c| ==> c[i] == x;
    }
    forall x | x in e
      ensures x !in d && x < |f|
    {
      InChainUsed(f, e, x);
    }
    Untouched(f, g, e);
  }

  /** Cutting takes nothing from another chain. */
  lemma CutOther(f: seq<nat>, g: seq<nat>, c: seq<nat>, d: seq<nat>, e: seq<nat>)
    requires Grew(f, g, c, d) && IsChain(g, e) && Disjoint(e, d)
    ensures IsChain(f, e)
  {
    forall i | 0 <= i < |e|
      ensures f[e[i]] == g[e[i]]
    {
      assert e[i] in e;
    }
    Untouched(g, f, e);
  }

  /** What is in the chains after growth: what was there, or a cluster that was free. */
  lemma GrewMembers(f: seq<nat>, g: seq<nat>, c: seq<nat>, d: seq<nat>)
    requires Grew(f, g, c, d)
    ensures forall x :: x in c ==> x in d
    ensures forall x :: x in d ==> 2 <= x < |f| && g[x] != 0 && (x in c || f[x] == 0)
  {
    forall x | x in d
      ensures 2 <= x < |f| && g[x] != 0 && (x in c || f[x] == 0)
    {
      InChainUsed(g, d, x);
      var i :| 0 <= i < |d| && d[i] == x;
      assert i < |c| ==> c[i] == x;
    }
    forall x | x in c
      ensures x in d
    {
      var i :| 0 <= i < |c| && c[i] == x;
      assert d[i] == x;
    }
  }

  lemma NotEmpty(f: seq<nat>, c: seq<nat>)
    requires IsChain(f, c)
    ensures c != []
  {}

  /** A FAT made of chains stays one when one of them grows. */
  lemma GrewPartition(f: seq<nat>, g: seq<nat>, cs: seq<seq<nat>>, k: nat, d: seq<nat>)
    requires Partitioned(f, cs) && k < |cs| && Grew(f, g, cs[k], d)
    ensures Partitioned(g, cs[k := d])
  {
    hide IsChain, Free;
    var c, ds := cs[k], cs[k := d];
    GrewMembers(f, g, c, d);
    forall i | 0 <= i < |cs| && i != k
      ensures IsChain(g, ds[i]) && Disjoint(ds[i], d)
    {
      assert forall x :: x in cs[i] && x in cs[k] ==> i == k;
      GrewOther(f, g, c, d, cs[i]);
    }
    NotEmpty(f, c);
    forall i, j, x | 0 <= i < |ds| && 0 <= j < |ds| && x in ds[i] && x in ds[j]
      ensures i == j
    {
      assert i != k && j != k ==> x in cs[i] && x in cs[j];
    }
    forall x | 2 <= x < |g| && g[x] != 0
      ensures InSome(ds, x)
    {
      if x in d {
        assert x in ds[k];
      } else {
        assert InSome(cs, x);
        var i :| 0 <= i < |cs| && x in cs[i];
        assert x in ds[i];
      }
    }
  }

  /** A FAT made of chains stays one when a new chain grows from nothing. */
  lemma GrewPartitionNew(f: seq<nat>, g: seq<nat>, cs: seq<seq<nat>>, d: seq<nat>)
    requires Partitioned(f, cs) && d != [] && Grew(f, g, [], d)
    ensures Partitioned(g, cs + [d])
  {
    hide IsChain, Free;
    var ds := cs + [d];
    GrewMembers(f, g, [], d);
    forall i | 0 <= i < |cs|
      ensures IsChain(g, ds[i]) && Disjoint(ds[i], d)
    {
      GrewOther(f, g, [], d, cs[i]);
    }
    forall i, j, x | 0 <= i < |ds| && 0 <= j < |ds| && x in ds[i] && x in ds[j]
      ensures i == j
    {
      assert i < |cs| && j < |cs| ==> x in cs[i] && x in cs[j];
    }
    forall x | 2 <= x < |g| && g[x] != 0
      ensures InSome(ds, x)
    {
      if x in d {
        assert x in ds[|cs|];
      } else {
        assert InSome(cs, x);
        var i :| 0 <= i < |cs| && x in cs[i];
        assert x in ds[i];
      }
    }
  }

  /** A FAT made of chains stays one when one of them is cut, c being what is left of it. */
  lemma CutPartition(f: seq<nat>, g: seq<nat>, cs: seq<seq<nat>>, k: nat, c: seq<nat>)
    requires Partitioned(g, cs) && k < |cs| && Grew(f, g, c, cs[k])
    ensures Partitioned(f, if c == [] then cs[..k] + cs[k + 1..] else cs[k := c])
  {
    hide IsChain, Free;
    var d := cs[k];
    var ds := cs[k := c];
    GrewMembers(f, g, c, d);
    forall i | 0 <= i < |cs| && i != k
      ensures IsChain(f, ds[i])
    {
      assert forall x :: x in cs[i] && x in cs[k] ==> i == k;
      CutOther(f, g, c, d, cs[i]);
    }
    forall i, j, x | 0 <= i < |ds| && 0 <= j < |ds| && x in ds[i] && x in ds[j]
      ensures i == j
    {
      assert x in cs[i] && x in cs[j];
    }
    forall x | 2 <= x < |f| && f[x] != 0
      ensures InSome(ds, x)
    {
      if x in d {
        LeftOver(f, g, c, d, x);
        assert x in ds[k];
      } else {
        assert InSome(cs, x);
        var i :| 0 <= i < |cs| && x in cs[i];
        assert x in ds[i];
      }
    }
    if c == [] {
      WithoutEmpty(f, ds, k);
      assert ds[..k] + ds[k + 1..] == cs[..k] + cs[k + 1..];
    }
  }

  lemma LeftOver(f: seq<nat>, g: seq<nat>, c: seq<nat>, d: seq<nat>, x: nat)
    requires Grew(f, g, c, d) && x in d && f[x] != 0
    ensures x in c
  {
    GrewMembers(f, g, c, d);
  }

  /** An empty sequence among chains can go. */
  lemma WithoutEmpty(f: seq<nat>, cs: seq<seq<nat>>, k: nat)
    requires k < |cs| && cs[k] == [] && (forall i :: 0 <= i < |cs| && i != k ==> IsChain(f, cs[i]))
    requires forall i, j, x :: 0 <= i < |cs| && 0 <= j < |cs| && x in cs[i] && x in cs[j] ==> i == j
    requires forall x :: 2 <= x < |f| && f[x] != 0 ==> InSome(cs, x)
    ensures Partitioned(f, cs[..k] + cs[k + 1..])
  {
    hide IsChain, InSome;
    var ds := cs[..k] + cs[k + 1..];
    assert forall i: nat :: i < |ds| ==> ds[i] == cs[Shift(i, k)] && Shift(i, k) < |cs| && Shift(i, k) != k;
    forall i, j, x | 0 <= i < |ds| && 0 <= j < |ds| && x in ds[i] && x in ds[j]
      ensures i == j
    {
      assert x in cs[Shift(i, k)] && x in cs[Shift(j, k)];
    }
    forall x | 2 <= x < |f| && f[x] != 0
      ensures InSome(ds, x)
    {
      OwnedElsewhere(cs, k, x);
    }
  }
}
