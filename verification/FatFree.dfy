/** f_getfree: the number of free clusters, taken from the count or from a scan of the FAT. */
module FatFree {
  import opened Sectors
  import opened FatTable
  import opened FatChain
  import opened FatVolume

  /** How many of the first n entries are zero. */
  function ZerosIn(f: seq<nat>, n: nat): nat
    requires n <= |f|
  {
    if n == 0 then 0 else ZerosIn(f, n - 1) + if f[n - 1] == 0 then 1 else 0
  }

  /** Zeros among the entries from 2 on are the free clusters. */
  lemma {:induction false} ZerosAreFree(f: seq<nat>, n: nat)
    requires 2 <= n <= |f|
    ensures ZerosIn(f, n) == ZerosIn(f, 2) + |Free(f[..n])|
  {
    if n == 2 {
      assert Free(f[..n]) == {};
    } else {
      ZerosAreFree(f, n - 1);
      if f[n - 1] == 0 {
        assert Free(f[..n]) == Free(f[..n - 1]) + {n - 1};
      } else {
        assert Free(f[..n]) == Free(f[..n - 1]);
      }
    }
  }

  /** A full table whose entry 0 is zero: the scan finds a cluster that is not there. */
  lemma ReservedCounted()
    ensures var f := [0, 0xFFFF, 0xFFFF]; ZerosIn(f, 3) == 1 && Free(f) == {}
  {
    var f := [0, 0xFFFF, 0xFFFF];
    assert ZerosIn(f, 1) == 1 && ZerosIn(f, 2) == 1;
  }

  /** Entry d is number r in sector j of a FAT with m entries to the sector. */
  ghost predicate EntryIn(d: nat, m: nat, j: nat, r: nat) { d == j * m + r && r < m }

  /** The next entry follows in the sector or starts the next one. */
  lemma EntryNext(d: nat, m: nat, j: nat, r: nat)
    requires EntryIn(d, m, j, r)
    ensures if r + 1 < m then EntryIn(d + 1, m, j, r + 1) else EntryIn(d + 1, m, j + 1, 0)
  {
    assert (j + 1) * m == j * m + m;
  }

  /** The offset of entry r of a sector. */
  ghost function OffsetOf(r: nat, w: nat): nat { r * w }

  /** Advancing the offset, with the remainder taken. */
  lemma OffsetNext(r: nat, m: nat, w: nat, ss: nat)
    requires r < m && (w == 2 || w == 4) && ss % 4 == 0 && m == (if w == 2 then ss / 2 else ss / 4)
    ensures ss > 0 && (OffsetOf(r, w) + w) % ss == if r + 1 < m then OffsetOf(r + 1, w) else 0
    ensures OffsetOf(r, w) == 0 <==> r == 0
    ensures OffsetOf(0, w) == 0
  {
    hide OffsetOf;
    OffsetIs(r, w);
    OffsetIs(r + 1, w);
    OffsetIs(0, w);
    Remainder(OffsetOf(r, w) + w, ss);
  }

  lemma OffsetIs(r: nat, w: nat)
    ensures w == 2 ==> OffsetOf(r, w) == 2 * r
    ensures w == 4 ==> OffsetOf(r, w) == 4 * r
  {}

  lemma Remainder(y: nat, ss: nat)
    requires 0 < y <= ss
    ensures y % ss == if y < ss then y else 0
  {
    if y < ss {
      WithinUnit(0, ss, y);
    } else {
      WithinUnit(1, ss, 0);
    }
  }

  /** Entry r of sector j, in bytes. */
  lemma Scaled(j: nat, m: nat, r: nat, w: nat)
    requires r < m && (w == 2 || w == 4)
    ensures r * w + w <= m * w && (j * m + r) * w % (m * w) == r * w
  {
    MulMono(r + 1, m, w);
    assert (r + 1) * w == r * w + w;
    assert (j * m) * w == j * (m * w);
    assert (j * m + r) * w == j * (m * w) + r * w;
    WithinUnit(j, m * w, r * w);
  }

  /** What the window over sector j of the FAT shows at offset i. */
  function Shown(t: FatType, s: Sector, i: nat): nat
    requires i + 4 <= |s| || (t == FAT16 && i + 2 <= |s|)
  {
    if t == FAT16 then Load16(s, i) else Load32(s, i) % 0x1000_0000
  }

  lemma ShownIsEntry(fs: Volume, d: nat, m: nat, j: nat, r: nat)
    requires fs.Valid() && fs.fsType != FAT12 && d < fs.nFatent
    requires EntryIn(d, m, j, r) && m == (if fs.fsType == FAT16 then fs.ss / 2 else fs.ss / 4)
    ensures fs.ss % 4 == 0 && j < fs.fsize && OffsetOf(r, Width(fs.fsType)) + Width(fs.fsType) <= fs.ss
    ensures Shown(fs.fsType, fs.FatSectors()[j], OffsetOf(r, Width(fs.fsType))) == fs.fat[d]
  {
    hide Volume.Outside, EntryIn, Encodes, Shown;
    fs.Room();
    if fs.fsType == FAT16 {
      Shown16(fs.FatSectors(), fs.ss, fs.fsize, fs.nFatent, fs.fat, d, j, r);
    } else {
      Shown32(fs.FatSectors(), fs.ss, fs.fsize, fs.nFatent, fs.fat, d, j, r);
    }
  }

  lemma Shown16(t: seq<Sector>, ss: nat, n: nat, nent: nat, f: seq<nat>, d: nat, j: nat, r: nat)
    requires WellSized(t, ss) && |t| == n && ss >= 4 && ss % 4 == 0 && d < nent && TableBytes(FAT16, nent) <= n * ss
    requires Encodes(FAT16, t, nent, f) && EntryIn(d, ss / 2, j, r)
    ensures j < n && r * 2 + 2 <= ss && Shown(FAT16, t[j], r * 2) == f[d]
  {
    hide Load16, Store16, Flat, WellSized, EntryIn;
    var m := ss / 2;
    assert ss == m * 2;
    EntryDivides(d, m, j, r, 2);
    MulMono(d + 1, nent, 2);
    WordAt(t, ss, n, d, j, r * 2, 0);
    assert Unfold(0);
  }

  lemma Shown32(t: seq<Sector>, ss: nat, n: nat, nent: nat, f: seq<nat>, d: nat, j: nat, r: nat)
    requires WellSized(t, ss) && |t| == n && ss >= 4 && ss % 4 == 0 && d < nent && TableBytes(FAT32, nent) <= n * ss
    requires Encodes(FAT32, t, nent, f) && EntryIn(d, ss / 4, j, r)
    ensures j < n && r * 4 + 4 <= ss && Shown(FAT32, t[j], r * 4) == f[d]
  {
    hide Load32, Store32, Flat, WellSized, EntryIn;
    var m := ss / 4;
    assert ss == m * 4;
    EntryDivides(d, m, j, r, 4);
    MulMono(d + 1, nent, 4);
    DwordAt(t, ss, n, d, j, r * 4, 0);
    assert Unfold(0);
  }

  lemma EntryDivides(d: nat, m: nat, j: nat, r: nat, w: nat)
    requires EntryIn(d, m, j, r) && (w == 2 || w == 4)
    ensures j == d / m && r * w == d * w % (m * w) && r * w + w <= m * w
  {
    WithinUnit(j, m, r);
    Scaled(j, m, r, w);
  }

  /** FAT16 and FAT32: count the zero entries sector by sector, from entry 0 on. */
  method ScanEntries(fs: Volume) returns (nfree: nat)
    requires fs.Valid() && fs.fsType != FAT12
    modifies fs`disk, fs`wflag, fs`winsect, fs.win
    ensures fs.Valid() && fs.Outside() == old(fs.Outside())
    ensures |fs.fat| == fs.nFatent && nfree == ZerosIn(fs.fat, fs.nFatent)
  {
    hide EntryIn, OffsetOf, Shown, Volume.Outside, Volume.Geometry, Encodes;
    nfree := 0;
    FatLength(fs);
    var clst, sect, i := fs.nFatent, fs.fatbase, 0;
    ghost var j, r := 0, 0;
    ghost var m := if fs.fsType == FAT16 then fs.ss / 2 else fs.ss / 4;
    EntryStart(m, Width(fs.fsType));
    while clst > 0
      invariant 0 <= clst <= fs.nFatent == |fs.fat| && fs.Valid() && fs.Outside() == old(fs.Outside())
      invariant 0 <= r < m && i == OffsetOf(r, Width(fs.fsType)) && EntryIn(fs.nFatent - clst, m, j, r)
      invariant sect == fs.fatbase + if r == 0 then j else j + 1
      invariant r != 0 ==> fs.winsect == fs.fatbase + j
      invariant nfree == ZerosIn(fs.fat, fs.nFatent - clst)
    {
      ShownIsEntry(fs, fs.nFatent - clst, m, j, r);
      EntryNext(fs.nFatent - clst, m, j, r);
      OffsetNext(r, m, Width(fs.fsType), fs.ss);
      FatFits(fs);
      if i == 0 {
        fs.MoveWindow(sect);
        sect := sect + 1;
      }
      if Shown(fs.fsType, fs.win[..], i) == 0 {
        nfree := nfree + 1;
      }
      i := (i + if fs.fsType == FAT16 then 2 else 4) % fs.ss;
      j, r := if r + 1 < m then j else j + 1, if r + 1 < m then r + 1 else 0;
      clst := clst - 1;
    }
  }

  lemma FatFits(fs: Volume)
    requires fs.Valid()
    ensures fs.fatbase + fs.fsize <= fs.nSect && fs.win.Length == fs.ss && fs.ss >= 512
  {}

  lemma EntryStart(m: nat, w: nat)
    requires m > 0
    ensures EntryIn(0, m, 0, 0) && OffsetOf(0, w) == 0
  {}

  lemma FatLength(fs: Volume)
    requires fs.Valid()
    ensures |fs.fat| == fs.nFatent && fs.ss >= 512
  {}

  /** FAT12: count by get_fat, from cluster 2 on; an entry 1 is an internal error. */
  method ScanClusters(fs: Volume) returns (res: FResult, nfree: nat)
    requires fs.Valid()
    modifies fs`disk, fs`wflag, fs`winsect, fs.win
    ensures fs.Valid() && fs.Outside() == old(fs.Outside())
    ensures |fs.fat| == fs.nFatent && res == if Corrupt(fs.fat) then FR_INT_ERR else FR_OK
    ensures res == FR_OK ==> nfree + ZerosIn(fs.fat, 2) == ZerosIn(fs.fat, fs.nFatent)
  {
    res, nfree := FR_OK, 0;
    var clst := 2;
    while clst < fs.nFatent
      invariant 2 <= clst <= fs.nFatent == |fs.fat| && fs.Valid() && fs.Outside() == old(fs.Outside())
      invariant forall c :: 2 <= c < clst ==> fs.fat[c] != 1
      invariant nfree + ZerosIn(fs.fat, 2) == ZerosIn(fs.fat, clst)
    {
      var stat := fs.GetFat(clst);
      if stat == 1 {
        return FR_INT_ERR, nfree;
      }
      if stat == 0 {
        nfree := nfree + 1;
      }
      clst := clst + 1;
    }
  }

  /**
  f_getfree. A count that is known is returned; otherwise the scan makes it known. The scan of
  FAT16 and FAT32 starts at entry 0, so it is exact if and only if the two reserved entries
  are not zero.
  */
  method GetFree(fs: Volume) returns (res: FResult, nclst: nat)
    requires fs.Valid() && |fs.fat| == fs.nFatent >= 2
    modifies fs`disk, fs`wflag, fs`winsect, fs`freeClst, fs.win
    ensures fs.Valid() && fs.fat == old(fs.fat) && fs.Outside() == old(fs.Outside())
    ensures old(fs.freeClst) <= fs.nFatent - 2 ==> res == FR_OK && nclst == old(fs.freeClst) == fs.freeClst
    ensures old(fs.freeClst) > fs.nFatent - 2 ==>
              && res == (if fs.fsType == FAT12 && Corrupt(fs.fat) then FR_INT_ERR else FR_OK)
              && (res == FR_OK ==> nclst == fs.freeClst)
              && (res == FR_OK ==> (nclst == |Free(fs.fat)| <==> fs.fsType == FAT12 || (fs.fat[0] != 0 && fs.fat[1] != 0)))
    ensures res != FR_OK ==> fs.freeClst == old(fs.freeClst)
  {
    hide Free, Corrupt;
    res := FR_OK;
    if fs.freeClst <= fs.nFatent - 2 {
      nclst := fs.freeClst;
    } else {
      if fs.fsType == FAT12 {
        res, nclst := ScanClusters(fs);
      } else {
        nclst := ScanEntries(fs);
      }
      ZerosAreFree(fs.fat, fs.nFatent);
      assert fs.fat[..fs.nFatent] == fs.fat;
      assert ZerosIn(fs.fat, 2) == ZerosIn(fs.fat, 1) + if fs.fat[1] == 0 then 1 else 0;
      if res == FR_OK {
        fs.freeClst := nclst;
      }
    }
  }
}
