/** Runs of allocations and removals: the FAT stays a set of disjoint chains, and nothing is lost or counted twice. */
module FatAllocatorRun {
  import opened FatTable
  import opened FatChain
  import opened FatVolume
  import opened FatAllocator

  /** Start a chain, extend chain k by a cluster, remove chain k, or cut it after its first m clusters. */
  datatype Op = Start | Extend(k: nat) | Remove(k: nat) | Cut(k: nat, m: nat)

  predicate Applies(cs: seq<seq<nat>>, op: Op) {
    match op
    case Start => true
    case Extend(k) => k < |cs|
    case Remove(k) => k < |cs|
    case Cut(k, m) => k < |cs| && 0 < m < |cs[k]|
  }

  /** The chains after an operation; r is the cluster it took, 0 if there was none. */
  function Step(cs: seq<seq<nat>>, op: Op, r: nat): seq<seq<nat>>
    requires Applies(cs, op)
  {
    match op
    case Start => if r == 0 then cs else cs + [[r]]
    case Extend(k) => if r == 0 then cs else cs[k := cs[k] + [r]]
    case Remove(k) => cs[..k] + cs[k + 1..]
    case Cut(k, m) => cs[k := cs[k][..m]]
  }

  /** The clusters of all chains, of n entries. */
  ghost function Used(n: nat, cs: seq<seq<nat>>): set<nat> {
    set x | 2 <= x < n && InSome(cs, x)
  }

  /** An entry is in a chain exactly when it is not zero, and then it is not 1 either. */
  lemma InChain(f: seq<nat>, cs: seq<seq<nat>>, x: nat)
    requires Partitioned(f, cs) && 2 <= x < |f|
    ensures InSome(cs, x) <==> f[x] != 0
    ensures f[x] != 1
  {
    if InSome(cs, x) {
      var i :| 0 <= i < |cs| && x in cs[i];
      assert IsChain(f, cs[i]);
      var j :| 0 <= j < |cs[i]| && cs[i][j] == x;
      assert j < |cs[i]| - 1 ==> f[cs[i][j]] == cs[i][j + 1];
    }
  }

  /** A FAT made of chains has no entry 1. */
  lemma NotCorrupt(f: seq<nat>, cs: seq<seq<nat>>)
    requires Partitioned(f, cs)
    ensures !Corrupt(f)
  {
    forall x | 2 <= x < |f|
      ensures f[x] != 1
    {
      InChain(f, cs, x);
    }
  }

  /** Conservation: every cluster is free or in a chain, and not both. */
  lemma Conservation(f: seq<nat>, cs: seq<seq<nat>>)
    requires Partitioned(f, cs)
    ensures forall x :: x in Free(f) || x in Used(|f|, cs) <==> 2 <= x < |f|
    ensures Free(f) !! Used(|f|, cs)
  {
    hide Partitioned, InSome;
    forall x | 2 <= x < |f|
      ensures InSome(cs, x) <==> f[x] != 0
    {
      InChain(f, cs, x);
    }
  }

  lemma IsOne(f: seq<nat>, cs: seq<seq<nat>>, k: nat)
    requires Partitioned(f, cs) && k < |cs|
    ensures IsChain(f, cs[k])
  {}

  lemma Ends(fs: Volume)
    requires fs.Valid()
    ensures |fs.fat| == fs.nFatent >= 3 && Eoc(fs.fsType) >= fs.nFatent
  {
    EndMark(fs);
  }

  /** create_chain on a FAT made of chains: it finds a cluster exactly when there is a free one. */
  method Take(fs: Volume, ghost cs: seq<seq<nat>>, clst: nat) returns (r: nat)
    requires fs.Valid() && Partitioned(fs.fat, cs) && Counted(fs.fat, fs.freeClst) && AtEnd(fs.fat, clst)
    modifies fs, fs.win
    ensures fs.Valid() && fs.Outside() == old(fs.Outside()) && Counted(fs.fat, fs.freeClst)
    ensures |old(fs.fat)| == fs.nFatent && Eoc(fs.fsType) >= fs.nFatent && (clst == 0 || clst < fs.nFatent)
    ensures r == 0 <==> NoFree(old(fs.fat))
    ensures if r == 0 then fs.fat == old(fs.fat) else Created(old(fs.fat), clst, Eoc(fs.fsType), r, fs.fat)
  {
    hide Partitioned, Corrupt, Volume.Valid, Volume.Outside;
    Ends(fs);
    NotCorrupt(fs.fat, cs);
    NoneCounted(fs.fat);
    r := CreateChain(fs, clst);
  }

  /** Perform an operation. A cluster is found exactly when there is a free one. */
  method Perform(fs: Volume, cs: seq<seq<nat>>, op: Op) returns (r: nat)
    requires fs.Valid() && Partitioned(fs.fat, cs) && Counted(fs.fat, fs.freeClst) && Applies(cs, op)
    modifies fs, fs.win
    ensures fs.Valid() && fs.Outside() == old(fs.Outside())
    ensures Partitioned(fs.fat, Step(cs, op, r)) && Counted(fs.fat, fs.freeClst)
    ensures op.Start? || op.Extend? ==> (r == 0 <==> NoFree(old(fs.fat)))
    ensures r != 0 ==> r in Free(old(fs.fat)) && (op.Start? || op.Extend?)
  {
    hide Partitioned, Volume.Valid, Volume.Outside, NoFree, Counted, Eoc;
    r := 0;
    Ends(fs);
    match op
    case Start =>
      r := Take(fs, cs, 0);
      if r != 0 {
        PartitionNew(old(fs.fat), cs, r, Eoc(fs.fsType));
      }
    case Extend(k) =>
      IsOne(fs.fat, cs, k);
      r := Take(fs, cs, cs[k][|cs[k]| - 1]);
      if r != 0 {
        PartitionAppend(old(fs.fat), cs, k, r, Eoc(fs.fsType));
      }
    case Remove(k) =>
      IsOne(fs.fat, cs, k);
      PartitionDrop(fs.fat, cs, k);
      var res := RemoveChain(fs, cs[k][0], 0);
    case Cut(k, m) =>
      IsOne(fs.fat, cs, k);
      PartitionCut(fs.fat, cs, k, m, Eoc(fs.fsType));
      assert fs.fat[cs[k][m - 1]] == cs[k][m];
      var res := RemoveChain(fs, cs[k][m], cs[k][m - 1]);
  }

  /** In a volume of n entries, r is a cluster of no chain, or 0 if every cluster is in one. */
  ghost predicate Picks(n: nat, cs: seq<seq<nat>>, r: nat) {
    if r == 0 then forall x :: 2 <= x < n ==> InSome(cs, x) else 2 <= r < n && !InSome(cs, r)
  }

  /** An operation takes the chains from cs to ds; one that does not apply is passed over. */
  ghost predicate Moves(n: nat, cs: seq<seq<nat>>, op: Op, r: nat, ds: seq<seq<nat>>) {
    if Applies(cs, op) then
      ds == Step(cs, op, r) && if op.Start? || op.Extend? then Picks(n, cs, r) else r == 0
    else ds == cs && r == 0
  }

  lemma FreePicks(f: seq<nat>, cs: seq<seq<nat>>, r: nat)
    requires Partitioned(f, cs) && |f| >= 2 && (r == 0 <==> NoFree(f)) && (r != 0 ==> r in Free(f))
    ensures Picks(|f|, cs, r)
  {
    hide Partitioned, InSome;
    forall x | 2 <= x < |f|
      ensures InSome(cs, x) <==> f[x] != 0
    {
      InChain(f, cs, x);
    }
  }

  /** Perform an operation if it applies, with its effect on the chains alone. */
  method Move(fs: Volume, cs: seq<seq<nat>>, op: Op) returns (r: nat, ds: seq<seq<nat>>)
    requires fs.Valid() && Partitioned(fs.fat, cs) && Counted(fs.fat, fs.freeClst)
    modifies fs, fs.win
    ensures fs.Valid() && fs.Outside() == old(fs.Outside()) && Partitioned(fs.fat, ds) && Counted(fs.fat, fs.freeClst)
    ensures Moves(fs.nFatent, cs, op, r, ds)
  {
    hide Partitioned, Volume.Outside, Counted, Free, NoFree, InSome, Encodes, Volume.Geometry;
    r, ds := 0, cs;
    if Applies(cs, op) {
      Ends(fs);
      r := Perform(fs, cs, op);
      ds := Step(cs, op, r);
      if op.Start? || op.Extend? {
        FreePicks(old(fs.fat), cs, r);
      }
    }
  }

  /**
  Every run of operations: the chains go from one operation to the next as Step says, a
  cluster is found exactly when one is in no chain, and in the end the FAT holds exactly these
  chains and the count of free clusters is exact.
  */
  method Run(fs: Volume, cs: seq<seq<nat>>, ops: seq<Op>)
    returns (ds: seq<seq<nat>>, taken: seq<nat>, ghost trace: seq<seq<seq<nat>>>)
    requires fs.Valid() && Partitioned(fs.fat, cs) && Counted(fs.fat, fs.freeClst)
    modifies fs, fs.win
    ensures fs.Valid() && fs.Outside() == old(fs.Outside())
    ensures Partitioned(fs.fat, ds) && Counted(fs.fat, fs.freeClst)
    ensures |taken| == |ops| && |trace| == |ops| + 1 && trace[0] == cs && trace[|ops|] == ds
    ensures forall i :: 0 <= i < |ops| ==> Moves(fs.nFatent, trace[i], ops[i], taken[i], trace[i + 1])
  {
    hide Partitioned, Volume.Outside, Counted, Moves, Encodes, Volume.Geometry;
    ds, taken, trace := cs, [], [cs];
    while |taken| < |ops|
      invariant fs.Valid() && fs.Outside() == old(fs.Outside())
      invariant Partitioned(fs.fat, ds) && Counted(fs.fat, fs.freeClst)
      invariant |taken| <= |ops| && |trace| == |taken| + 1 && trace[0] == cs && trace[|taken|] == ds
      invariant forall i :: 0 <= i < |taken| ==> Moves(fs.nFatent, trace[i], ops[i], taken[i], trace[i + 1])
    {
      var r;
      r, ds := Move(fs, ds, ops[|taken|]);
      taken, trace := taken + [r], trace + [ds];
    }
  }
}
