/**
The cluster link map of fast seek: fragments (length, first cluster) of a chain, stored in
a caller's table behind the table size and ended by a zero length.
*/
module FatLinkMap {
  import opened FatChain
  import opened FatTable
  import opened FatVolume

  /** The offset that asks f_lseek for a link map, when the file has a table for one. */
  const CREATE_LINKMAP: nat := DWORD_MAX

  /** From index i on, the table lists the clusters of chain, fragment by fragment. */
  ghost predicate Maps(t: seq<nat>, i: nat, chain: seq<nat>)
    decreases |chain|
  {
    if chain == [] then i < |t| && t[i] == 0
    else
      && i + 1 < |t|
      && 0 < t[i] <= |chain|
      && (forall j :: 0 <= j < t[i] ==> chain[j] == t[i + 1] + j)
      && Maps(t, i + 2, chain[t[i]..])
  }

  /** A table maps at most one chain. */
  lemma {:induction false} MapsOne(t: seq<nat>, i: nat, c: seq<nat>, d: seq<nat>)
    requires Maps(t, i, c) && Maps(t, i, d)
    ensures c == d
    decreases |c|
  {
    if c != [] && d != [] {
      MapsOne(t, i + 2, c[t[i]..], d[t[i]..]);
      assert c == c[..t[i]] + c[t[i]..] && d == d[..t[i]] + d[t[i]..];
      assert c[..t[i]] == d[..t[i]];
    }
  }

  /** clmt_clust: cluster number cl of the file, 0 past the end of the table. */
  method ClusterFromMap(t: seq<nat>, order: nat, ghost chain: seq<nat>) returns (r: nat)
    requires Maps(t, 1, chain)
    ensures r == if order < |chain| then chain[order] else 0
  {
    var i: nat, cl: nat := 1, order;
    ghost var rest := chain;
    while true
      invariant Maps(t, i, rest)
      invariant |rest| <= |chain| && rest == chain[|chain| - |rest|..]
      invariant cl + (|chain| - |rest|) == order
      decreases |rest|
    {
      var ncl := t[i];
      if ncl == 0 {
        assert rest == [];
        return 0;
      }
      if cl < ncl {
        return cl + t[i + 1];
      }
      rest := rest[ncl..];
      cl, i := cl - ncl, i + 2;
    }
  }

  /** Length of the first fragment of a chain. */
  function FirstRun(c: seq<nat>): (n: nat)
    requires c != []
    ensures 0 < n <= |c|
    ensures forall j :: 0 <= j < n ==> c[j] == c[0] + j
    ensures n < |c| ==> c[n] != c[0] + n
  {
    if |c| > 1 && c[1] == c[0] + 1 then
      var m := FirstRun(c[1..]);
      assert forall j :: 1 <= j < m + 1 ==> c[j] == c[1..][j - 1];
      m + 1
    else 1
  }

  /** Number of fragments of a chain: maximal runs of consecutive clusters. */
  function Fragments(c: seq<nat>): nat {
    if c == [] then 0 else 1 + Fragments(c[FirstRun(c)..])
  }

  /** The end mark of a chain follows its last cluster by chance, which get_fat users take for a link. */
  ghost predicate FalseLink(f: seq<nat>, c: seq<nat>)
    requires IsChain(f, c)
  {
    f[c[|c| - 1]] == c[|c| - 1] + 1
  }

  /** This takes the last cluster of the volume, ended by the first number behind the table. */
  lemma FalseLinkIff(f: seq<nat>, c: seq<nat>)
    requires IsChain(f, c)
    ensures FalseLink(f, c) <==> c[|c| - 1] == |f| - 1 && f[c[|c| - 1]] == |f|
  {
    var l := c[|c| - 1];
    assert 2 <= l < |f| && f[l] >= |f|;
  }

  /** A chain of the last cluster of a table of four entries, ended by a 4. */
  lemma FalseLinkAt()
    ensures var f := [0xFF8, 0xFFF, 0, 4]; IsChain(f, [3]) && FalseLink(f, [3])
  {}

  /** The least end mark of the FAT32 File System Specification, section "FAT Data Structure". */
  function LeastEndMark(t: FatType): nat {
    match t
    case FAT12 => 0xFF8
    case FAT16 => 0xFFF8
    case FAT32 => 0x0FFF_FFF8
  }

  /** Neither such an end mark nor the one that put_fat writes is taken for a link. */
  lemma ProperEnd(fs: Volume, c: seq<nat>)
    requires fs.Valid() && IsChain(fs.fat, c)
    ensures fs.fat[c[|c| - 1]] >= LeastEndMark(fs.fsType) ==> !FalseLink(fs.fat, c)
    ensures Eoc(fs.fsType) >= LeastEndMark(fs.fsType)
  {
    assert |fs.fat| == fs.nFatent <= MaxClusters(fs.fsType) + 2 <= LeastEndMark(fs.fsType) - 1;
    FalseLinkIff(fs.fat, c);
  }

  /** Walk one fragment: the inner loop of CREATE_LINKMAP. */
  method WalkFragment(fs: Volume, first: nat, ghost c: seq<nat>) returns (ok: bool, ncl: nat, cl: nat)
    requires fs.Valid() && IsChain(fs.fat, c) && c[0] == first
    modifies fs`disk, fs`wflag, fs`winsect, fs.win
    ensures fs.Valid() && fs.fat == old(fs.fat) && fs.Outside() == old(fs.Outside())
    ensures fs.InFirstFat(fs.winsect)
    ensures ok <==> !(FirstRun(c) == |c| && FalseLink(fs.fat, c))
    ensures ok ==> ncl == FirstRun(c)
    ensures ok ==> if ncl < |c| then cl == c[ncl] else cl >= fs.nFatent
  {
    ncl, cl := 0, first;
    ghost var f, v, m := fs.fat, fs.Outside(), FirstRun(c);
    while true
      invariant fs.Valid() && fs.fat == f && fs.Outside() == v
      invariant if ncl < m then cl == c[ncl] else ncl == m == |c| && FalseLink(f, c) && cl == fs.nFatent
      invariant ncl > 0 ==> fs.InFirstFat(fs.winsect)
      decreases m + 1 - ncl
    {
      var pcl := cl;
      assert ncl < m ==> f[c[ncl]] == if ncl == |c| - 1 then f[c[|c| - 1]] else c[ncl + 1];
      ncl := ncl + 1;
      cl := fs.GetFat(cl);
      if cl <= 1 {
        return false, ncl, cl;
      }
      if cl != pcl + 1 {
        break;
      }
    }
    return true, ncl, cl;
  }

  /** Whatever completes the table from index k on with the rest of the chain maps all of it. */
  ghost predicate Leads(t: seq<nat>, k: nat, rest: seq<nat>, chain: seq<nat>) {
    1 <= k <= |t| &&
    forall u: seq<nat> :: |u| == |t| && u[1..k] == t[1..k] && Maps(u, k, rest) ==> Maps(u, 1, chain)
  }

  lemma LeadsStart(t: seq<nat>, chain: seq<nat>)
    requires |t| > 0
    ensures Leads(t, 1, chain, chain)
  {}

  lemma LeadsOn(t: seq<nat>, k: nat, rest: seq<nat>, chain: seq<nat>)
    requires Leads(t, k, rest, chain) && rest != [] && k + 2 <= |t|
    ensures var n := FirstRun(rest);
            Leads(t[k := n][k + 1 := rest[0]], k + 2, rest[n..], chain)
  {
    var n := FirstRun(rest);
    var s := t[k := n][k + 1 := rest[0]];
    forall u: seq<nat> | |u| == |s| && u[1..k + 2] == s[1..k + 2] && Maps(u, k + 2, rest[n..])
      ensures Maps(u, 1, chain)
    {
      assert u[k] == s[1..k + 2][k - 1] == n && u[k + 1] == s[1..k + 2][k] == rest[0];
      assert Maps(u, k, rest);
      assert u[1..k] == u[1..k + 2][..k - 1] == t[1..k];
    }
  }

  /** Store a fragment when the table has room for it. */
  method StoreFragment(t: seq<nat>, tlen: nat, ulen: nat, ncl: nat, tcl: nat, ghost rest: seq<nat>, ghost chain: seq<nat>)
    returns (u: seq<nat>)
    requires tlen <= |t| && ulen >= 4 && rest != []
    requires ncl == FirstRun(rest) && tcl == rest[0]
    requires ulen - 2 <= tlen ==> Leads(t, ulen - 3, rest, chain)
    ensures |u| == |t| && forall i :: tlen <= i < |t| ==> u[i] == t[i]
    ensures ulen <= tlen ==> Leads(u, ulen - 1, rest[ncl..], chain)
  {
    u := t;
    if ulen <= tlen {
      LeadsOn(u, ulen - 3, rest, chain);
      u := u[ulen - 3 := ncl][ulen - 2 := tcl];
    }
  }

  /** What remains of a chain after its first fragment. */
  function Rest(c: seq<nat>): (d: seq<nat>)
    requires c != []
    ensures |d| < |c|
  {
    c[FirstRun(c)..]
  }

  lemma RestIsChain(f: seq<nat>, c: seq<nat>)
    requires IsChain(f, c)
    ensures Fragments(c) == 1 + Fragments(Rest(c))
    ensures Rest(c) != [] ==>
              IsChain(f, Rest(c)) && Rest(c)[0] == c[FirstRun(c)] && (FalseLink(f, Rest(c)) <==> FalseLink(f, c))
  {
    hide FirstRun;
    var k := FirstRun(c);
    if k < |c| {
      Suffix(f, c, k);
      SameEnd(f, c, k);
    }
  }

  lemma SameEnd(f: seq<nat>, c: seq<nat>, k: nat)
    requires IsChain(f, c) && k < |c| && IsChain(f, c[k..])
    ensures c[k..][0] == c[k] && (FalseLink(f, c[k..]) <==> FalseLink(f, c))
  {
    assert c[k..][|c| - k - 1] == c[|c| - 1];
  }

  /** One pass of the fragment loop: walk the first fragment of rest and store it. */
  method TakeFragment(fs: Volume, t: seq<nat>, tlen: nat, ulen: nat, first: nat, ghost rest: seq<nat>, ghost chain: seq<nat>)
    returns (ok: bool, u: seq<nat>, cl: nat)
    requires fs.Valid() && tlen <= |t| && ulen >= 4
    requires IsChain(fs.fat, rest) && rest[0] == first
    requires ulen - 2 <= tlen ==> Leads(t, ulen - 3, rest, chain)
    modifies fs`disk, fs`wflag, fs`winsect, fs.win
    ensures fs.Valid() && fs.fat == old(fs.fat) && fs.Outside() == old(fs.Outside()) && fs.InFirstFat(fs.winsect)
    ensures |u| == |t| && forall i :: tlen <= i < |t| ==> u[i] == t[i]
    ensures ok <==> !(Rest(rest) == [] && FalseLink(fs.fat, rest))
    ensures ok ==> if Rest(rest) == [] then cl >= fs.nFatent else cl < fs.nFatent && cl == Rest(rest)[0]
    ensures ok && ulen <= tlen ==> Leads(u, ulen - 1, Rest(rest), chain)
  {
    hide Leads, Volume.Geometry, Volume.Mirrored, Volume.View, Volume.Outside;
    u := t;
    var ncl;
    ok, ncl, cl := WalkFragment(fs, first, rest);
    if ok {
      u := StoreFragment(t, tlen, ulen, ncl, first, rest, chain);
    }
  }

  /** The fragment loop of CREATE_LINKMAP: ulen is the size needed so far, tlen the size given. */
  method StoreFragments(fs: Volume, t: seq<nat>, tlen: nat, sclust: nat, ghost chain: seq<nat>)
    returns (ok: bool, u: seq<nat>, ulen: nat)
    requires fs.Valid() && 0 < |t| && tlen <= |t|
    requires IsChain(fs.fat, chain) && chain[0] == sclust
    modifies fs`disk, fs`wflag, fs`winsect, fs.win
    ensures fs.Valid() && fs.fat == old(fs.fat) && fs.Outside() == old(fs.Outside())
    ensures fs.InFirstFat(fs.winsect)
    ensures |u| == |t| && forall i :: tlen <= i < |t| ==> u[i] == t[i]
    ensures ok <==> !FalseLink(fs.fat, chain)
    ensures ok ==> ulen == 2 * Fragments(chain) + 2
    ensures ok && ulen <= tlen ==> Leads(u, ulen - 1, [], chain)
  {
    hide Leads, FalseLink, Rest, Volume.Geometry, Volume.Mirrored, Volume.View, Volume.Outside;
    u, ulen := t, 2;
    LeadsStart(t, chain);
    var cl := sclust;
    ghost var rest, f, v := chain, fs.fat, fs.Outside();
    while true
      invariant fs.Valid() && fs.fat == f && fs.Outside() == v
      invariant |u| == |t| && forall i :: tlen <= i < |t| ==> u[i] == t[i]
      invariant IsChain(f, rest) && rest[0] == cl && (FalseLink(f, rest) <==> FalseLink(f, chain))
      invariant ulen + 2 * Fragments(rest) == 2 * Fragments(chain) + 2
      invariant ulen >= 2
      invariant ulen <= tlen ==> Leads(u, ulen - 1, rest, chain)
      decreases |rest|
    {
      RestIsChain(f, rest);
      ulen := ulen + 2;
      ok, u, cl := TakeFragment(fs, u, tlen, ulen, cl, rest, chain);
      if !ok {
        return;
      }
      rest := Rest(rest);
      if cl >= fs.nFatent {
        return;
      }
    }
  }

  /**
  CREATE_LINKMAP for a file with the given chain. The table size is taken from t[0], no
  entry beyond it is written, and t[0] becomes the size needed. It fails when the table is
  too small, and on a false link.
  */
  method CreateLinkMap(fs: Volume, t: seq<nat>, sclust: nat, ghost chain: seq<nat>) returns (res: FResult, u: seq<nat>)
    requires fs.Valid() && 0 < |t| && t[0] <= |t|
    requires if sclust == 0 then chain == [] else IsChain(fs.fat, chain) && chain[0] == sclust
    modifies fs`disk, fs`wflag, fs`winsect, fs.win
    ensures fs.Valid() && fs.fat == old(fs.fat) && fs.Outside() == old(fs.Outside())
    ensures fs.InFirstFat(fs.winsect) || fs.winsect == old(fs.winsect)
    ensures |u| == |t| && forall i :: t[0] <= i < |t| && i > 0 ==> u[i] == t[i]
    ensures res == FR_INT_ERR <==> chain != [] && FalseLink(fs.fat, chain)
    ensures chain != [] && fs.fat[chain[|chain| - 1]] >= LeastEndMark(fs.fsType) ==> res != FR_INT_ERR
    ensures res == FR_OK ==> Maps(u, 1, chain)
    ensures res != FR_INT_ERR ==> u[0] == 2 * Fragments(chain) + 2
    ensures res != FR_INT_ERR ==> res == if 2 * Fragments(chain) + 2 <= t[0] then FR_OK else FR_NOT_ENOUGH_CORE
  {
    if chain != [] {
      ProperEnd(fs, chain);
    }
    u := t;
    var tlen, ulen := t[0], 2;
    if sclust != 0 {
      var ok;
      ok, u, ulen := StoreFragments(fs, t, tlen, sclust, chain);
      if !ok {
        return FR_INT_ERR, u;
      }
    }
    ghost var w := u;
    u := u[0 := ulen];
    if ulen <= tlen {
      u := u[ulen - 1 := 0];
      assert u[1..ulen - 1] == w[1..ulen - 1];
      assert Maps(u, ulen - 1, []);
      res := FR_OK;
    } else {
      res := FR_NOT_ENOUGH_CORE;
    }
  }
}
