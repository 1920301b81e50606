/** The cluster allocator: remove_chain and create_chain on the FAT of a volume. */
module FatAllocator {
  import opened FatTable
  import opened FatChain
  import opened FatVolume
  import opened Sectors

  /** clst2sect: first sector of a cluster, 0 for a cluster number out of range. */
  method ClusterSector(fs: Volume, clst: nat) returns (s: nat)
    requires fs.Geometry()
    ensures s == if 2 <= clst < fs.nFatent then fs.base[clst] else 0
  {
    if 2 <= clst < fs.nFatent {
      assert Unfold(0);
      s := fs.database + fs.csize * (clst - 2);
    } else {
      s := 0;
    }
  }

  /** The FAT remove_chain leaves behind: pclst ends its chain, the loop runs from clst. */
  ghost function RemoveFrom(f: seq<nat>, clst: nat, pclst: nat, eoc: nat): Removal
    requires 2 <= clst < |f|
  {
    if pclst == 0 then Removed(f, clst)
    else if 2 <= pclst < |f| then Removed(f[pclst := eoc], clst)
    else Removal(f, false)
  }

  /** The first cluster starts the data area, and each takes as many sectors as a cluster has. */
  lemma BaseOfCluster(fs: Volume, c: nat)
    requires fs.Geometry() && 2 <= c < fs.nFatent
    ensures c < |fs.base| && fs.base[c] == fs.database + fs.csize * (c - 2)
  {
    assert Unfold(0);
  }

  lemma EndMark(fs: Volume)
    requires fs.Geometry()
    ensures Eoc(fs.fsType) >= fs.nFatent
  {}

  /**
  remove_chain. It terminates on any FAT, a cyclic one included, because every pass of the
  loop marks a used cluster free; the count of free clusters, when known, stays exact.
  */
  method RemoveChain(fs: Volume, clst: nat, pclst: nat) returns (res: FResult)
    requires fs.Valid()
    modifies fs, fs.win
    ensures fs.Valid() && fs.lastClst == old(fs.lastClst)
    ensures fs.Outside() == old(fs.Outside())
    ensures !(2 <= clst < fs.nFatent) ==> res == FR_INT_ERR && fs.fat == old(fs.fat)
    ensures 2 <= clst < fs.nFatent ==>
              RemoveFrom(old(fs.fat), clst, pclst, Eoc(fs.fsType)) == Removal(fs.fat, res == FR_OK)
    ensures Counted(old(fs.fat), old(fs.freeClst)) && (2 <= pclst < fs.nFatent ==> old(fs.fat)[pclst] != 0) ==>
              Counted(fs.fat, fs.freeClst)
    ensures fs.InFirstFat(fs.winsect) || fs.winsect == old(fs.winsect)
  {
    if clst < 2 || clst >= fs.nFatent {
      return FR_INT_ERR;
    }
    if pclst != 0 {
      res := EndAt(fs, pclst);
      if res != FR_OK {
        return;
      }
    }
    res := RemoveLoop(fs, clst);
  }

  /** Mark a cluster as the last of its chain. */
  method EndAt(fs: Volume, pclst: nat) returns (res: FResult)
    requires fs.Valid()
    modifies fs`disk, fs`wflag, fs`winsect, fs`fat, fs.win
    ensures fs.Valid() && fs.Outside() == old(fs.Outside())
    ensures res == if 2 <= pclst < fs.nFatent then FR_OK else FR_INT_ERR
    ensures if res == FR_OK then fs.fat == old(fs.fat)[pclst := Eoc(fs.fsType)] && fs.InFirstFat(fs.winsect)
            else fs.fat == old(fs.fat) && fs.winsect == old(fs.winsect)
    ensures res == FR_OK && old(fs.fat)[pclst] != 0 ==> Free(fs.fat) == Free(old(fs.fat))
  {
    ghost var f := fs.fat;
    res := fs.PutFat(pclst, DWORD_MAX);
    if res == FR_OK && f[pclst] != 0 {
      RelinkCount(f, pclst, Eoc(fs.fsType));
    }
  }

  /** Mark a used cluster free and count it. */
  method FreeOne(fs: Volume, clst: nat)
    requires fs.Valid() && 2 <= clst < fs.nFatent && fs.fat[clst] != 0
    modifies fs`disk, fs`wflag, fs`winsect, fs`freeClst, fs`fat, fs.win
    ensures fs.Valid() && fs.Outside() == old(fs.Outside())
    ensures fs.fat == old(fs.fat)[clst := 0]
    ensures |NonZero(fs.fat)| < |NonZero(old(fs.fat))|
    ensures Counted(old(fs.fat), old(fs.freeClst)) ==> Counted(fs.fat, fs.freeClst)
    ensures fs.InFirstFat(fs.winsect)
  {
    ReleaseShrinks(fs.fat, clst);
    ReleaseCount(fs.fat, clst);
    var r := fs.PutFat(clst, 0);
    if fs.freeClst < fs.nFatent - 2 {
      fs.freeClst := fs.freeClst + 1;
    }
  }

  /** The loop of remove_chain. */
  method RemoveLoop(fs: Volume, first: nat) returns (res: FResult)
    requires fs.Valid() && 2 <= first < fs.nFatent
    modifies fs, fs.win
    ensures fs.Valid() && fs.lastClst == old(fs.lastClst)
    ensures fs.Outside() == old(fs.Outside())
    ensures Removed(old(fs.fat), first) == Removal(fs.fat, res == FR_OK)
    ensures res == FR_OK || res == FR_INT_ERR
    ensures Counted(old(fs.fat), old(fs.freeClst)) ==> Counted(fs.fat, fs.freeClst)
    ensures fs.InFirstFat(fs.winsect)
  {
    var clst := first;
    ghost var f0, v0, counted := fs.fat, fs.Outside(), Counted(fs.fat, fs.freeClst);
    while true
      invariant fs.Valid() && 2 <= clst < fs.nFatent
      invariant fs.lastClst == old(fs.lastClst)
      invariant fs.Outside() == v0
      invariant Removed(fs.fat, clst) == Removed(f0, first)
      invariant counted ==> Counted(fs.fat, fs.freeClst)
      decreases |NonZero(fs.fat)|
    {
      var nxt := fs.GetFat(clst);
      if nxt == 0 {
        return FR_OK;
      }
      if nxt == 1 {
        return FR_INT_ERR;
      }
      FreeOne(fs, clst);
      if nxt >= fs.nFatent {
        return FR_OK;
      }
      clst := nxt;
    }
  }

  /** What create_chain may answer when it has to find a free cluster. */
  ghost predicate Created(f: seq<nat>, clst: nat, eoc: nat, r: nat, g: seq<nat>)
    requires clst < |f|
  {
    2 <= r < |f| && f[r] == 0 && g == Linked(f, r, clst, eoc)
  }

  /** clst is 0 (start a chain) or the last cluster of a chain. */
  ghost predicate AtEnd(f: seq<nat>, clst: nat) {
    clst == 0 || (2 <= clst < |f| && f[clst] >= |f|)
  }

  /**
  create_chain. A cluster that already has a successor is only followed; otherwise one free
  cluster is taken, and the answer 0 means that there is none.
  */
  method CreateChain(fs: Volume, clst: nat) returns (r: nat)
    requires fs.Valid()
    modifies fs, fs.win
    ensures fs.Valid()
    ensures fs.Outside() == old(fs.Outside())
    ensures clst != 0 && !(2 <= clst < fs.nFatent && old(fs.fat)[clst] >= 2) ==> r == 1 && fs.fat == old(fs.fat)
    ensures 2 <= clst < fs.nFatent && 2 <= old(fs.fat)[clst] < fs.nFatent ==>
              r == old(fs.fat)[clst] && fs.fat == old(fs.fat)
    ensures AtEnd(old(fs.fat), clst) ==>
              || (r == 0 && fs.fat == old(fs.fat) && (old(fs.freeClst) == 0 || (NoFree(fs.fat) && !Corrupt(fs.fat))))
              || (r == 1 && fs.fat == old(fs.fat) && Corrupt(fs.fat))
              || (Created(old(fs.fat), clst, Eoc(fs.fsType), r, fs.fat) && fs.lastClst == r && fs.InFirstFat(fs.winsect))
    ensures fs.fat == old(fs.fat) ==> fs.freeClst == old(fs.freeClst)
    ensures Counted(old(fs.fat), old(fs.freeClst)) ==> Counted(fs.fat, fs.freeClst)
    ensures fs.InFirstFat(fs.winsect) || fs.winsect == old(fs.winsect)
  {
    var scl;
    if clst == 0 {
      scl := fs.lastClst;
      if scl == 0 || scl >= fs.nFatent {
        scl := 1;
      }
    } else {
      var cs := fs.GetFat(clst);
      if cs < 2 {
        return 1;
      }
      if cs < fs.nFatent {
        return cs;
      }
      scl := clst;
    }
    if fs.freeClst == 0 {
      return 0;
    }
    var ncl := FindCluster(fs, scl, clst);
    if ncl < 2 {
      return ncl;
    }
    TakeCluster(fs, ncl, clst);
    r := ncl;
  }

  /** Link a free cluster and update the allocation information. */
  method TakeCluster(fs: Volume, ncl: nat, clst: nat)
    requires fs.Valid() && 2 <= ncl < fs.nFatent && fs.fat[ncl] == 0
    requires AtEnd(fs.fat, clst)
    modifies fs, fs.win
    ensures fs.Valid() && fs.Outside() == old(fs.Outside())
    ensures Created(old(fs.fat), clst, Eoc(fs.fsType), ncl, fs.fat)
    ensures fs.lastClst == ncl && fs.InFirstFat(fs.winsect)
    ensures Counted(old(fs.fat), old(fs.freeClst)) ==> Counted(fs.fat, fs.freeClst)
  {
    hide Volume.Rewritten;
    ghost var f, eoc := fs.fat, Eoc(fs.fsType);
    TakeCount(f, ncl, eoc);
    FreeBound(f);
    var res := fs.PutFat(ncl, DWORD_MAX);
    if clst != 0 {
      RelinkCount(fs.fat, clst, ncl);
      res := fs.PutFat(clst, ncl);
      ClusterFits(fs, ncl);
    }
    fs.lastClst := ncl;
    if fs.freeClst > 0 && fs.freeClst <= fs.nFatent - 2 {
      fs.freeClst := fs.freeClst - 1;
    }
  }

  /** A cluster number fits in an entry of the volume's FAT type. */
  lemma ClusterFits(fs: Volume, c: nat)
    requires fs.Geometry() && c < fs.nFatent
    ensures Masked(fs.fsType, c) == c
  {
    match fs.fsType
    case FAT12 => assert c < 0x1000;
    case FAT16 => assert c < 0x1_0000;
    case FAT32 => assert c < 0x1000_0000;
  }

  /** The search of create_chain: the next cluster when stretching, then the circular scan. */
  method FindCluster(fs: Volume, start: nat, clst: nat) returns (ncl: nat)
    requires fs.Valid() && 1 <= start < fs.nFatent
    requires clst == 0 || start == clst
    requires clst == 0 || 2 <= clst
    modifies fs`disk, fs`wflag, fs`winsect, fs.win
    ensures fs.Valid() && fs.fat == old(fs.fat)
    ensures fs.Outside() == old(fs.Outside())
    ensures ncl == 0 ==> NoFree(fs.fat) && !Corrupt(fs.fat)
    ensures ncl == 1 ==> Corrupt(fs.fat)
    ensures ncl >= 2 ==> ncl < fs.nFatent && fs.fat[ncl] == 0
    ensures fs.InFirstFat(fs.winsect)
  {
    var scl := start;
    ncl := 0;
    if scl == clst {
      ncl := scl + 1;
      if ncl >= fs.nFatent {
        ncl := 2;
      }
      var cs := fs.GetFat(ncl);
      if cs == 1 {
        return 1;
      }
      if cs != 0 {
        cs := fs.lastClst;
        if 2 <= cs < fs.nFatent {
          scl := cs;
        }
        ncl := 0;
      }
    }
    if ncl == 0 {
      ncl := ScanFrom(fs, scl);
    }
  }

  /** The clusters the circular scan has looked at when it stands on ncl. */
  ghost predicate Visited(x: int, scl: nat, ncl: nat, n: nat, wrapped: bool) {
    if wrapped then scl < x < n || 2 <= x <= ncl else scl < x <= ncl
  }

  /** The circular scan of create_chain, starting after cluster scl and ending on it. */
  method ScanFrom(fs: Volume, scl: nat) returns (ncl: nat)
    requires fs.Valid() && 1 <= scl < fs.nFatent
    modifies fs`disk, fs`wflag, fs`winsect, fs.win
    ensures fs.Valid() && fs.fat == old(fs.fat)
    ensures fs.Outside() == old(fs.Outside())
    ensures ncl == 0 ==> NoFree(fs.fat) && !Corrupt(fs.fat)
    ensures ncl == 1 ==> Corrupt(fs.fat)
    ensures ncl >= 2 ==> ncl < fs.nFatent && fs.fat[ncl] == 0
    ensures fs.InFirstFat(fs.winsect)
  {
    ncl := scl;
    ghost var wrapped, f, v, n := false, fs.fat, fs.Outside(), fs.nFatent;
    while true
      invariant fs.Valid() && fs.fat == f && fs.Outside() == v
      invariant if wrapped then 2 <= ncl < scl && fs.InFirstFat(fs.winsect) else scl <= ncl < n
      invariant ncl != scl ==> fs.InFirstFat(fs.winsect)
      invariant forall x :: 2 <= x < n && Visited(x, scl, ncl, n, wrapped) ==> f[x] >= 2
      decreases !wrapped, n - ncl
    {
      ncl := ncl + 1;
      if ncl >= fs.nFatent {
        ncl := 2;
        wrapped := true;
        if ncl > scl {
          return 0;
        }
      }
      var cs := fs.GetFat(ncl);
      if cs == 0 {
        return ncl;
      }
      if cs == 1 {
        return 1;
      }
      if ncl == scl {
        return 0;
      }
    }
  }
}
