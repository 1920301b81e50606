/**
A mounted FAT volume: the disk, the one-sector write-back window over it, and the
allocation table read and written through that window.
*/
module FatVolume {
  import opened Sectors
  import opened FatTable
  import opened FileLayout

  datatype FResult = FR_OK | FR_INT_ERR | FR_NO_FILE | FR_DENIED | FR_NOT_ENOUGH_CORE

  /** The sectors of a FAT encode the entries fat. */
  ghost predicate Encodes(t: FatType, sectors: seq<Sector>, n: nat, fat: seq<nat>) {
    |fat| == n &&
    forall u {:trigger Unfold(u)} :: Unfold(u) ==> TableBytes(t, n) <= |Flat(sectors)| && fat == Entries(t, Flat(sectors), n)
  }

  /** The table fits in a FAT, and every cluster has its place on the disk. */
  ghost predicate Based(base: seq<nat>, t: FatType, ss: nat, csize: nat, n: nat, fsize: nat, database: nat, nSect: nat) {
    && |base| == n && Placed(base, csize, database, nSect)
    && (forall u {:trigger Unfold(u)} :: Unfold(u) ==>
          && TableBytes(t, n) <= fsize * ss
          && forall c :: 2 <= c < n ==> base[c] == database + csize * (c - 2))
  }

  /** Where the clusters are, when the disk has room for all of them. */
  lemma ClusterBases(t: FatType, ss: nat, csize: nat, n: nat, fsize: nat, database: nat, nSect: nat) returns (base: seq<nat>)
    requires n >= 3 && csize >= 1 && database + csize * (n - 2) <= nSect && TableBytes(t, n) <= fsize * ss
    ensures Based(base, t, ss, csize, n, fsize, database, nSect)
  {
    hide TableBytes;
    base := seq(n, c requires 0 <= c < n => if c < 2 then 0 else ClusterBase(database, csize, c));
    forall c, d | 2 <= c < d < n
      ensures base[c] + csize <= base[d]
    {
      NextBase(database, csize, c, d);
    }
    forall c | 2 <= c < n
      ensures database <= base[c] && base[c] + csize <= nSect
    {
      NextBase(database, csize, c, n);
    }
  }

  ghost function ClusterBase(database: nat, csize: nat, c: nat): nat
    requires c >= 2
  {
    database + csize * (c - 2)
  }

  lemma NextBase(database: nat, csize: nat, c: nat, d: nat)
    requires 2 <= c < d
    ensures ClusterBase(database, csize, c) + csize <= ClusterBase(database, csize, d)
  {
    MulMono(c - 1, d - 2, csize);
    assert (c - 1) * csize == csize * (c - 2) + csize && (d - 2) * csize == csize * (d - 2);
  }

  lemma SpliceSized(v: seq<Sector>, p: nat, d: seq<Sector>, ss: nat)
    requires WellSized(v, ss) && WellSized(d, ss) && p + |d| <= |v|
    ensures WellSized(Splice(v, p, d), ss)
  {}

  class Volume {
    // Fixed when the volume is mounted
    const fsType: FatType
    const ss: nat         // sector size [byte]
    const csize: nat      // cluster size [sector]
    const nFats: nat
    const nFatent: nat    // number of FAT entries: clusters + 2
    const fatbase: nat
    const fsize: nat      // sectors per FAT
    const database: nat
    const nSect: nat      // sectors on the disk
    const win: array<Byte>
    ghost const base: seq<nat>  // first sector of each cluster

    var disk: seq<Sector>
    var winsect: nat
    var wflag: bool
    var lastClst: nat
    var freeClst: nat
    ghost var fat: seq<nat>     // the FAT as a sequence of entries

    /** What mount_volume has checked before it makes the volume valid. */
    ghost predicate Geometry() {
      && 512 <= ss <= 4096 && ss % 4 == 0
      && 1 <= csize
      && 1 <= nFats <= 2
      && 3 <= nFatent <= MaxClusters(fsType) + 2
      && 1 <= fatbase
      && fatbase + (if nFats == 2 then 2 * fsize else fsize) <= database <= nSect
      && win.Length == ss
      && Based(base, fsType, ss, csize, nFatent, fsize, database, nSect)
    }

    /** A mounted volume: the window is clean and holds some sector. */
    constructor Mounted(fsType: FatType, ss: nat, csize: nat, nFats: nat, nFatent: nat, fatbase: nat, fsize: nat,
                        database: nat, disk: seq<Sector>, winsect: nat, lastClst: nat, freeClst: nat,
                        ghost base: seq<nat>, ghost fat: seq<nat>)
      requires 512 <= ss <= 4096 && ss % 4 == 0 && 1 <= csize && 1 <= nFats <= 2 && 1 <= fatbase
      requires 3 <= nFatent <= MaxClusters(fsType) + 2
      requires fatbase + (if nFats == 2 then 2 * fsize else fsize) <= database <= |disk|
      requires WellSized(disk, ss) && winsect < |disk|
      requires nFats == 2 ==> disk[fatbase + fsize..fatbase + 2 * fsize] == disk[fatbase..fatbase + fsize]
      requires Based(base, fsType, ss, csize, nFatent, fsize, database, |disk|)
      requires Encodes(fsType, disk[fatbase..fatbase + fsize], nFatent, fat)
      ensures Valid() && fresh(win) && !wflag
      ensures this.fsType == fsType && this.ss == ss && this.csize == csize && this.nFats == nFats && this.nFatent == nFatent
      ensures this.fatbase == fatbase && this.fsize == fsize && this.database == database
      ensures this.disk == disk && this.winsect == winsect && View() == disk && this.lastClst == lastClst && this.freeClst == freeClst
      ensures this.fat == fat
    {
      hide Encodes;
      this.fsType, this.ss, this.csize, this.nFats, this.nFatent := fsType, ss, csize, nFats, nFatent;
      this.fatbase, this.fsize, this.database, this.nSect := fatbase, fsize, database, |disk|;
      this.disk, this.winsect, this.wflag, this.lastClst, this.freeClst := disk, winsect, false, lastClst, freeClst;
      this.base, this.fat := base, fat;
      this.win := new Byte[ss](i requires 0 <= i < ss => disk[winsect][i]);
      new;
      assert win[..] == disk[winsect];
      assert View() == disk;
    }

    /** The table fits in a FAT. */
    lemma Room()
      requires Geometry()
      ensures TableBytes(fsType, nFatent) <= fsize * ss
    {
      assert Unfold(0);
    }

    ghost predicate InFirstFat(s: int) { fatbase <= s < fatbase + fsize }

    ghost predicate InSecondFat(s: int) { nFats == 2 && fatbase + fsize <= s < fatbase + 2 * fsize }

    ghost predicate Mirrored()
      requires Geometry() && |disk| == nSect
      reads this
    {
      nFats == 2 ==> disk[fatbase + fsize..fatbase + 2 * fsize] == disk[fatbase..fatbase + fsize]
    }

    /** The window and the disk agree, and so do the two FATs on the disk. */
    ghost predicate Sane()
      reads this, win
    {
      && Geometry()
      && |disk| == nSect && WellSized(disk, ss)
      && winsect < nSect
      && (!wflag ==> win[..] == disk[winsect])
      && (wflag ==> !InSecondFat(winsect))
      && Mirrored()
    }

    /** The disk as seen through the window. */
    ghost function View(): (v: seq<Sector>)
      requires Sane()
      reads this, win
      ensures |v| == nSect && WellSized(v, ss)
    {
      disk[winsect := win[..]]
    }

    /** The first FAT as seen through the window. */
    ghost function FatSectors(): (t: seq<Sector>)
      requires Sane()
      reads this, win
      ensures |t| == fsize && WellSized(t, ss)
    {
      View()[fatbase..fatbase + fsize]
    }

    /** The abstract FAT is what the first FAT encodes. */
    ghost predicate Valid()
      reads this, win
    {
      Sane() && Encodes(fsType, FatSectors(), nFatent, fat)
    }

    /** The first sector after the FATs. */
    ghost function FatEnd(): nat { fatbase + (if nFats == 2 then 2 * fsize else fsize) }

    /** Byte k of the first FAT, where it is on the disk as seen through the window. */
    ghost function FatByte(k: nat): nat
      requires Sane() && k < fsize * ss
      reads this, win
    {
      Sectors.ByteInSector(FatSectors(), ss, fsize, k);
      View()[fatbase + k / ss][k % ss]
    }

    /** What the entries of the FAT are, byte by byte. */
    lemma EntryInBytes(c: nat)
      requires Valid() && Sane() && c < |fat| == nFatent
      ensures fsType == FAT12 ==>
                && c + c / 2 + 1 < fsize * ss
                && var lo, hi := FatByte(c + c / 2), FatByte(c + c / 2 + 1);
                   fat[c] == if c % 2 == 0 then lo + 0x100 * (hi % 16) else lo / 16 + 16 * hi
      ensures fsType == FAT16 ==> 2 * c + 1 < fsize * ss && fat[c] == FatByte(2 * c) + 0x100 * FatByte(2 * c + 1)
      ensures fsType == FAT32 ==>
                && 4 * c + 3 < fsize * ss
                && fat[c] == FatByte(4 * c) + 0x100 * FatByte(4 * c + 1) + 0x1_0000 * FatByte(4 * c + 2)
                             + 0x100_0000 * (FatByte(4 * c + 3) % 16)
    {
      hide Valid, Sane, FatByte, FatSectors, Get;
      EntryOnDisk(c);
      ghost var b, o := Flat(FatSectors()), Offset(fsType, c);
      FatByteIs(o);
      FatByteIs(o + 1);
      if fsType == FAT32 {
        FatByteIs(o + 2);
        FatByteIs(o + 3);
      }
      EntryOfBytes(fsType, b, c);
    }

    lemma EntryOnDisk(c: nat)
      requires Valid() && c < nFatent
      ensures Sane() && Offset(fsType, c) + Width(fsType) <= fsize * ss == |Flat(FatSectors())|
      ensures fat[c] == Get(fsType, Flat(FatSectors()), c)
    {
      hide Get;
      EntryFits(fsType, c, nFatent);
      assert Unfold(0);
      FlatLength(FatSectors(), ss);
    }

    lemma FatByteIs(k: nat)
      requires Sane() && k < fsize * ss
      ensures k < |Flat(FatSectors())| && FatByte(k) == Flat(FatSectors())[k] as int
    {
      ByteInSector(FatSectors(), ss, fsize, k);
    }

    /** Everything on the disk but the FATs, as seen through the window. */
    ghost function Outside(): seq<Sector>
      requires Sane()
      reads this, win
    {
      View()[..fatbase] + View()[FatEnd()..]
    }

    /** Views that agree outside the FATs agree on the data area. */
    lemma DataSame(v: seq<Sector>, w: seq<Sector>)
      requires Geometry() && |v| == |w| == nSect
      requires v[..fatbase] + v[FatEnd()..] == w[..fatbase] + w[FatEnd()..]
      ensures forall s :: database <= s < nSect ==> w[s] == v[s]
    {
      forall s | database <= s < nSect
        ensures w[s] == v[s]
      {
        var k := fatbase + (s - FatEnd());
        assert v[s] == (v[..fatbase] + v[FatEnd()..])[k];
        assert w[s] == (w[..fatbase] + w[FatEnd()..])[k];
      }
    }

    /** sync_window: write a dirty window back, to both FATs when it lies in the first. */
    method SyncWindow()
      requires Sane()
      modifies this`disk, this`wflag
      ensures Sane() && !wflag
      ensures FatSectors() == old(FatSectors())
      ensures Outside() == old(Outside())
      ensures disk == View()
    {
      if wflag {
        disk := disk[winsect := win[..]];
        wflag := false;
        if fatbase <= winsect && winsect - fatbase < fsize {
          if nFats == 2 {
            disk := disk[winsect + fsize := win[..]];
          }
        }
      }
    }

    /** move_window: bring a sector into the window, flushing the old one first. */
    method MoveWindow(sect: nat)
      requires Sane() && sect < nSect
      modifies this`disk, this`wflag, this`winsect, win
      ensures Sane() && winsect == sect
      ensures FatSectors() == old(FatSectors())
      ensures Outside() == old(Outside())
    {
      if sect != winsect {
        SyncWindow();
        ghost var v := View();
        ReadSector(sect);
        winsect := sect;
        assert View() == v;
      }
    }

    /** disk_read of one sector into the window buffer. */
    method ReadSector(sect: nat)
      requires Geometry() && |disk| == nSect && WellSized(disk, ss) && sect < nSect
      modifies win
      ensures win[..] == disk[sect]
    {
      var i := 0;
      while i < ss
        invariant 0 <= i <= ss
        invariant forall j :: 0 <= j < i ==> win[j] == disk[sect][j]
      {
        win[i] := disk[sect][i];
        i := i + 1;
      }
    }

    /** Store a byte in the window over sector j of the first FAT and mark it dirty. */
    method PokeFat(j: nat, o: nat, x: Byte)
      requires Sane() && j < fsize && o < ss
      requires winsect == fatbase + j
      modifies this`wflag, win
      ensures Sane()
      ensures FatSectors() == old(FatSectors()[j := WithByte(FatSectors()[j], o, x)])
      ensures Outside() == old(Outside())
    {
      win[o] := x;
      wflag := true;
      assert win[..] == WithByte(old(FatSectors()[j]), o, x);
    }

    /** Entry clst of the first FAT is val. */
    ghost predicate Holds(clst: nat, val: nat)
      requires Sane()
      reads this, win
    {
      var b := Flat(FatSectors());
      Offset(fsType, clst) + Width(fsType) <= |b| && val == Get(fsType, b, clst)
    }

    /** get_fat, the FAT12 case: the two bytes may lie in different sectors. */
    method GetFat12(clst: nat) returns (val: nat)
      requires Sane() && fsType == FAT12 && 2 <= clst < nFatent
      modifies this`disk, this`wflag, this`winsect, win
      ensures Sane() && FatSectors() == old(FatSectors())
      ensures Outside() == old(Outside())
      ensures Holds(clst, val)
      ensures InFirstFat(winsect)
    {
      var bc := clst + clst / 2;
      EntryFits(FAT12, clst, nFatent);
      assert Unfold(0);
      ByteInSector(FatSectors(), ss, fsize, bc);
      ByteInSector(FatSectors(), ss, fsize, bc + 1);
      MoveWindow(fatbase + bc / ss);
      var lo := win[bc % ss];
      MoveWindow(fatbase + (bc + 1) / ss);
      var hi := win[(bc + 1) % ss];
      val := Unpack12(clst, lo, hi);
    }

    /** get_fat, the FAT16 case. */
    method GetFat16(clst: nat) returns (val: nat)
      requires Sane() && fsType == FAT16 && 2 <= clst < nFatent
      modifies this`disk, this`wflag, this`winsect, win
      ensures Sane() && FatSectors() == old(FatSectors())
      ensures Outside() == old(Outside())
      ensures Holds(clst, val)
      ensures InFirstFat(winsect)
    {
      Room();
      var j, o := LocateWord(FatSectors(), ss, fsize, clst);
      MoveWindow(fatbase + j);
      val := Load16(win[..], o);
    }

    /** get_fat, the FAT32 case: the upper four bits are not part of the value. */
    method GetFat32(clst: nat) returns (val: nat)
      requires Sane() && fsType == FAT32 && 2 <= clst < nFatent
      modifies this`disk, this`wflag, this`winsect, win
      ensures Sane() && FatSectors() == old(FatSectors())
      ensures Outside() == old(Outside())
      ensures Holds(clst, val)
      ensures InFirstFat(winsect)
    {
      Room();
      var j, o := LocateDword(FatSectors(), ss, fsize, clst);
      MoveWindow(fatbase + j);
      val := Load32(win[..], o) % 0x1000_0000;
    }

    /** get_fat: the status of a cluster, 1 for a number out of range. */
    method GetFat(clst: nat) returns (val: nat)
      requires Valid()
      modifies this`disk, this`wflag, this`winsect, win
      ensures Valid()
      ensures Outside() == old(Outside())
      ensures val == if 2 <= clst < nFatent then fat[clst] else 1
      ensures if 2 <= clst < nFatent then InFirstFat(winsect) else winsect == old(winsect)
    {
      if clst < 2 || clst >= nFatent {
        val := 1;
      } else {
        match fsType {
          case FAT12 => val := GetFat12(clst);
          case FAT16 => val := GetFat16(clst);
          case FAT32 => val := GetFat32(clst);
        }
        assert Unfold(0);
      }
    }

    /** st_16 into the window over sector j of the first FAT. */
    method Store16At(j: nat, o: nat, w: nat)
      requires Sane() && j < fsize && o + 2 <= ss
      requires winsect == fatbase + j
      modifies this`wflag, win
      ensures Sane()
      ensures FatSectors() == old(FatSectors()[j := Store16(FatSectors()[j], o, w)])
      ensures Outside() == old(Outside())
    {
      PokeFat(j, o, w % 0x100);
      PokeFat(j, o + 1, w / 0x100 % 0x100);
    }

    /** st_32 into the window over sector j of the first FAT. */
    method Store32At(j: nat, o: nat, w: nat)
      requires Sane() && j < fsize && o + 4 <= ss
      requires winsect == fatbase + j
      modifies this`wflag, win
      ensures Sane()
      ensures FatSectors() == old(FatSectors()[j := Store32(FatSectors()[j], o, w)])
      ensures Outside() == old(Outside())
    {
      Store16At(j, o, w);
      Store16At(j, o + 2, w / 0x1_0000);
    }

    /** put_fat, the FAT12 case. */
    method PutFat12(clst: nat, val: nat)
      requires Sane() && fsType == FAT12 && 2 <= clst < nFatent
      modifies this`disk, this`wflag, this`winsect, win
      ensures Sane() && InFirstFat(winsect)
      ensures Outside() == old(Outside())
      ensures Offset(FAT12, clst) + 2 <= |Flat(old(FatSectors()))|
      ensures Flat(FatSectors()) == Put(FAT12, Flat(old(FatSectors())), clst, val)
    {
      var bc := clst + clst / 2;
      EntryFits(FAT12, clst, nFatent);
      assert Unfold(0);
      PutByte12(clst, bc, val, true);
      PutByte12(clst, bc + 1, val, false);
    }

    /** Rewrite one of the two bytes of a FAT12 entry. */
    method PutByte12(clst: nat, k: nat, val: nat, first: bool)
      requires Sane() && k < fsize * ss
      modifies this`disk, this`wflag, this`winsect, win
      ensures Sane() && InFirstFat(winsect)
      ensures Outside() == old(Outside())
      ensures k < |Flat(old(FatSectors()))|
      ensures var x := Flat(old(FatSectors()))[k];
              Flat(FatSectors()) == Flat(old(FatSectors()))[k := if first then Pack12Lo(clst, x, val) else Pack12Hi(clst, x, val)]
    {
      ByteInSector(FatSectors(), ss, fsize, k);
      MoveWindow(fatbase + k / ss);
      var x := if first then Pack12Lo(clst, win[k % ss], val) else Pack12Hi(clst, win[k % ss], val);
      ByteUpdate(FatSectors(), ss, fsize, k, x);
      PokeFat(k / ss, k % ss, x);
    }

    /** put_fat, the FAT16 case. */
    method PutFat16(clst: nat, val: nat)
      requires Sane() && fsType == FAT16 && 2 <= clst < nFatent
      modifies this`disk, this`wflag, this`winsect, win
      ensures Sane() && InFirstFat(winsect)
      ensures Outside() == old(Outside())
      ensures Offset(FAT16, clst) + 2 <= |Flat(old(FatSectors()))|
      ensures Flat(FatSectors()) == Put(FAT16, Flat(old(FatSectors())), clst, val)
    {
      Room();
      var j, o := LocateWord(FatSectors(), ss, fsize, clst);
      MoveWindow(fatbase + j);
      Store16At(j, o, val);
    }

    /** put_fat, the FAT32 case. */
    method PutFat32(clst: nat, val: nat)
      requires Sane() && fsType == FAT32 && 2 <= clst < nFatent
      modifies this`disk, this`wflag, this`winsect, win
      ensures Sane() && InFirstFat(winsect)
      ensures Outside() == old(Outside())
      ensures Offset(FAT32, clst) + 4 <= |Flat(old(FatSectors()))|
      ensures Flat(FatSectors()) == Put(FAT32, Flat(old(FatSectors())), clst, val)
    {
      Room();
      var j, o := LocateDword(FatSectors(), ss, fsize, clst);
      MoveWindow(fatbase + j);
      var w := Merge32(Load32(win[..], o), val);
      Store32At(j, o, w);
    }

    /** The bytes of the FAT are those of t with the entry clst rewritten. */
    ghost predicate Rewritten(t: seq<Sector>, clst: nat, val: nat)
      requires Sane()
      reads this, win
    {
      Offset(fsType, clst) + Width(fsType) <= |Flat(t)| && Flat(FatSectors()) == Put(fsType, Flat(t), clst, val)
    }

    /** put_fat: a point update of the abstract FAT, refused for a number out of range. */
    method PutFat(clst: nat, val: nat) returns (res: FResult)
      requires Valid()
      modifies this`disk, this`wflag, this`winsect, this`fat, win
      ensures Valid()
      ensures Outside() == old(Outside())
      ensures res == if 2 <= clst < nFatent then FR_OK else FR_INT_ERR
      ensures res == FR_OK ==> fat == old(fat)[clst := Masked(fsType, val)] && InFirstFat(winsect)
      ensures res != FR_OK ==> fat == old(fat) && winsect == old(winsect)
      ensures res == FR_OK ==> Rewritten(old(FatSectors()), clst, val)
    {
      if 2 <= clst < nFatent {
        assert Unfold(0);
        PutIsUpdate(fsType, Flat(FatSectors()), nFatent, clst, val);
        match fsType {
          case FAT12 => PutFat12(clst, val);
          case FAT16 => PutFat16(clst, val);
          case FAT32 => PutFat32(clst, val);
        }
        fat := fat[clst := Masked(fsType, val)];
        return FR_OK;
      }
      return FR_INT_ERR;
    }

    /** disk_write of data sectors, past the window. */
    method DiskWrite(sect: nat, d: seq<Sector>)
      requires Valid() && database <= sect && sect + |d| <= nSect && WellSized(d, ss)
      requires !(sect <= winsect < sect + |d|)
      modifies this`disk
      ensures Valid() && View() == Splice(old(View()), sect, d)
      ensures FatSectors() == old(FatSectors())
    {
      hide Splice, Encodes, Based;
      SpliceOutside(disk, sect, d, fatbase, fatbase + fsize, winsect, win[..]);
      SpliceSized(disk, sect, d, ss);
      SpliceOutside(View(), sect, d, fatbase, fatbase + fsize, winsect, win[..]);
      if nFats == 2 {
        SpliceOutside(disk, sect, d, fatbase + fsize, fatbase + 2 * fsize, winsect, win[..]);
      }
      disk := Splice(disk, sect, d);
    }
  }
}
