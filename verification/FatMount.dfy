/** mount_volume: finding a FAT volume on a drive and reading its layout back. */
module FatMount {
  import opened Optional
  import opened Sectors
  import opened FatTable
  import opened FatChain
  import opened FatVolume
  import opened FatLayout
  import opened FatFormat

  /** What mount_volume learns from a boot sector. */
  datatype Mounted = Mounted(
    fsType: FatType,
    csize: nat,
    nFats: nat,
    fsize: nat,
    nRootdir: nat,
    nFatent: nat,
    volbase: nat,
    fatbase: nat,
    database: nat,
    dirbase: nat)   // FAT32: first cluster of the root directory, else its first sector

  /** check_fs: 0 for a FAT boot sector, 2 for another valid one, 3 for none. */
  function CheckFs(s: Sector): nat
    requires |s| >= 512
  {
    var sign := Load16(s, 510);
    if (s[0] == 0xEB || s[0] == 0xE9 || s[0] == 0xE8)
       && ((sign == 0xAA55 && s[82..90] == FAT32_NAME)
           || (&& SectorSize(Load16(s, 11))
               && PowerOfTwo(s[13])
               && Load16(s, 14) != 0
               && 1 <= s[16] <= 2
               && Load16(s, 17) != 0
               && (Load16(s, 19) >= 128 || Load32(s, 32) >= 0x1_0000)
               && Load16(s, 22) != 0))
    then 0
    else if sign == 0xAA55 then 2 else 3
  }

  /** The part of mount_volume that analyses the boot sector of a FAT volume; None: no file system. */
  function Analyse(s: Sector, ss: nat, bsect: nat): Option<Mounted>
    requires |s| >= 512 && SectorSize(ss)
  {
    var fsize := if Load16(s, 22) == 0 then Load32(s, 36) else Load16(s, 22);
    var nFats: nat := s[16];
    var fasize := if nFats == 2 then 2 * fsize else fsize;
    var csize: nat := s[13];
    var nRootdir := Load16(s, 17);
    var tsect := if Load16(s, 19) == 0 then Load32(s, 32) else Load16(s, 19);
    var nrsv := Load16(s, 14);
    var sysect := nrsv + fasize + Over(nRootdir, ss / 32);
    if Load16(s, 11) != ss || !(1 <= nFats <= 2) || !PowerOfTwo(csize)
       || nRootdir % (ss / 32) != 0 || nrsv == 0 || tsect < sysect then None
    else
      var nclst := Over(tsect - sysect, csize);
      if nclst == 0 || TypeOf(nclst).None? then None
      else
        var t := TypeOf(nclst).value;
        if t == FAT32 && (Load16(s, 42) != 0 || nRootdir != 0) then None
        else if t != FAT32 && nRootdir == 0 then None
        else if fsize < Over(TableBytes(t, nclst + 2) + ss - 1, ss) then None
        else
          Some(Mounted(t, csize, nFats, fsize, nRootdir, nclst + 2, bsect, bsect + nrsv, bsect + sysect,
                       if t == FAT32 then Load32(s, 44) else bsect + nrsv + fasize))
  }

  /** What a volume that is accepted is, byte by byte: where its areas start, one behind the other. */
  lemma AnalyseAreas(s: Sector, ss: nat, bsect: nat)
    requires |s| >= 512 && SectorSize(ss) && Analyse(s, ss, bsect).Some?
    ensures var m := Analyse(s, ss, bsect).value;
            && m.csize == s[13] as int && m.nFats == s[16] as int && 1 <= m.nFats <= 2 && m.nRootdir == Little(s[17..19])
            && m.fsize == (if Little(s[22..24]) != 0 then Little(s[22..24]) else Little(s[36..40]))
            && m.volbase == bsect && m.fatbase == bsect + Little(s[14..16])
            && m.database == m.fatbase + m.nFats * m.fsize + m.nRootdir / (ss / 32) && m.nRootdir % (ss / 32) == 0
            && (if m.fsType == FAT32 then m.dirbase == Little(s[44..48]) && m.nRootdir == 0
                else m.dirbase == m.fatbase + m.nFats * m.fsize && m.nRootdir != 0)
  {
    hide PowerOfTwo, TableBytes, TypeOf, Load16, Load32;
    LoadIsLittle(s, 14);
    LoadIsLittle(s, 17);
    LoadIsLittle(s, 22);
    LoadIsLittle(s, 36);
    LoadIsLittle(s, 44);
  }

  /** And how many clusters it has, which FAT type that number means, and that the FAT is large enough. */
  lemma AnalyseClusters(s: Sector, ss: nat, bsect: nat)
    requires |s| >= 512 && SectorSize(ss) && Analyse(s, ss, bsect).Some?
    ensures var m := Analyse(s, ss, bsect).value;
            var total := if Little(s[19..21]) != 0 then Little(s[19..21]) else Little(s[32..36]);
            && m.nFatent >= 3 && (m.nFatent - 2) * m.csize <= total - (m.database - m.volbase) < (m.nFatent - 1) * m.csize
            && m.fsType == (if m.nFatent - 2 <= 4085 then FAT12 else if m.nFatent - 2 <= 65525 then FAT16 else FAT32)
            && TableBytes(m.fsType, m.nFatent) <= m.fsize * ss
  {
    hide TableBytes, Load16, Load32;
    LoadIsLittle(s, 19);
    LoadIsLittle(s, 32);
    var m := Analyse(s, ss, bsect).value;
    var total := if Load16(s, 19) == 0 then Load32(s, 32) else Load16(s, 19);
    Quotient(total - (m.database - m.volbase), m.csize);
    CeilingHolds(TableBytes(m.fsType, m.nFatent), m.fsize, ss);
  }

  lemma Quotient(x: nat, d: nat)
    requires d > 0
    ensures Over(x, d) * d <= x < (Over(x, d) + 1) * d
  {
    DivMod(x, d);
    assert (x / d + 1) * d == x / d * d + d;
  }

  lemma CeilingHolds(x: nat, n: nat, ss: nat)
    requires ss > 0 && Over(x + ss - 1, ss) <= n
    ensures x <= n * ss
  {
    var y := x + ss - 1;
    DivMod(y, ss);
    MulMono(y / ss, n, ss);
  }

  /** The information sector counts only with its three signatures: RRaA, rrAa, and the last four bytes. */
  lemma InfoNeedsSignatures(s: Sector)
    requires |s| >= 512
    ensures var signed := s[0..4] == [0x52, 0x52, 0x61, 0x41] && s[484..488] == [0x72, 0x72, 0x41, 0x61] && s[508..512] == [0, 0, 0x55, 0xAA];
            Info(s) == if signed then (Little(s[492..496]), Little(s[488..492])) else (DWORD_MAX, DWORD_MAX)
  {
    hide Load32;
    LoadIsLittle(s, 0);
    LoadIsLittle(s, 484);
    LoadIsLittle(s, 488);
    LoadIsLittle(s, 492);
    LoadIsLittle(s, 508);
    Signature(s[0..4], 0x52, 0x52, 0x61, 0x41);
    Signature(s[484..488], 0x72, 0x72, 0x41, 0x61);
    Signature(s[508..512], 0, 0, 0x55, 0xAA);
  }

  /** Four bytes are known by the number they stand for. */
  lemma Signature(d: seq<Byte>, a: Byte, b: Byte, c: Byte, e: Byte)
    requires |d| == 4
    ensures Little(d) == a + 0x100 * (b as int) + 0x1_0000 * (c as int) + 0x100_0000 * (e as int) <==> d == [a, b, c, e]
  {
    LittleFour(d);
  }

  /** What a formatted volume should be mounted as. */
  function Expected(q: Request, l: Layout): Mounted {
    Mounted(l.fsType, l.pau, q.nFat, l.fatSize, if l.fsType == FAT32 then 0 else q.nRoot, l.clusters + 2,
            q.bVol, FatBase(q, l), q.bVol + SystemSize(q, l), if l.fsType == FAT32 then 2 else RootBase(q, l))
  }

  lemma CeilingFits(x: nat, n: nat, ss: nat)
    requires ss > 0 && x <= n * ss
    ensures Over(x + ss - 1, ss) <= n
  {
    assert (n + 1) * ss == n * ss + ss;
    DivLess(x + ss - 1, ss, n + 1);
  }

  lemma ExactQuotient(x: nat, d: nat, n: nat)
    requires d > 0 && x * d == n
    ensures Over(n, d) == x && n % d == 0
  {
    WithinUnit(x, d, 0);
  }

  /** What a boot sector with the fields of a layout says to Analyse. */
  lemma FieldsRead(s: Sector, q: Request, l: Layout)
    requires Proper(q) && Usable(q, l) && BootSays(s, q, l)
    ensures var fsize := if Load16(s, 22) == 0 then Load32(s, 36) else Load16(s, 22);
            var tsect := if Load16(s, 19) == 0 then Load32(s, 32) else Load16(s, 19);
            && fsize == l.fatSize && s[16] == q.nFat && s[13] == l.pau && tsect == q.szVol
            && Load16(s, 14) == l.rsv && Load16(s, 11) == q.ss && s[0] == 0xEB
            && Load16(s, 17) == (if l.fsType == FAT32 then 0 else q.nRoot)
            && (l.fsType == FAT32 ==> Load16(s, 42) == 0 && Load32(s, 44) == 2 && s[82..90] == FAT32_NAME)
            && Load16(s, 510) == 0xAA55
            && (l.fsType != FAT32 ==> Load16(s, 22) != 0)
            && (Load16(s, 19) >= 128 || Load32(s, 32) >= 0x1_0000)
  {
    hide PowerOfTwo, TableBytes, Load16, Load32, Multiple, SystemSize;
  }

  /**
  The boot sector of a formatted volume is recognised, and is read back as the layout it was
  made from exactly when alignment has left a cluster.
  */
  lemma ReadBack(s: Sector, q: Request, l: Layout)
    requires Proper(q) && Usable(q, l) && BootSays(s, q, l)
    ensures CheckFs(s) == 0
    ensures Analyse(s, q.ss, q.bVol) == if l.clusters >= 1 then Some(Expected(q, l)) else None
  {
    hide BootSays, PowerOfTwo, TableBytes, Load16, Load32, Multiple;
    FieldsRead(s, q, l);
    var nRootdir := if l.fsType == FAT32 then 0 else q.nRoot;
    ExactQuotient(l.dirSize, q.ss / 32, nRootdir);
    CeilingFits(TableBytes(l.fsType, l.clusters + 2), l.fatSize, q.ss);
  }

  // ---- When alignment leaves a cluster ---------------------------------------------------

  /** The condition of the round trip, in sectors. */
  lemma ClusterLeftIff(q: Request, l: Layout)
    requires Usable(q, l)
    ensures l.clusters >= 1 <==> q.szVol >= SystemSize(q, l) + l.pau
  {
    hide PowerOfTwo, TableBytes, Multiple, TypeOf;
    DivLess(q.szVol - SystemSize(q, l), l.pau, 1);
  }

  /** With blocks up to fifteen clusters, a block size of 1 among them, a cluster is always left. */
  lemma SmallBlocks(q: Request, l: Layout)
    requires Proper(q) && Usable(q, l) && Attempt(q, l.fsType == FAT32, l.pau) == Some(l)
    requires q.szBlk <= 15 * l.pau + 1
    ensures l.clusters >= 1
  {
    hide Attempt, PowerOfTwo, TableBytes, Multiple, TypeOf;
    var u, n := Candidate(q, l.fsType == FAT32, l.pau, l);
    ClusterLeftIff(q, l);
  }

  /** 128 sectors, blocks of 128: f_mkfs accepts a volume without a single cluster. */
  lemma NoClusterLeft()
    ensures var q := Request(512, 0, 128, 128, 1, 512);
            && Proper(q) && PowerOfTwo(q.szBlk) && Fits(q, false, 1)
            && Attempt(q, false, 1) == Some(Layout(FAT12, 1, 1, 95, 32, 0))
  {
    Powers();
    assert U32(195 + 511) == 706 && U32(0) == 0;
    assert Padding(34, 128) == 94;
  }

  // ---- Mounting ----------------------------------------------------------------------------

  /** Sector sect as check_fs classifies it; 4 when it cannot be read. */
  function CheckSector(disk: seq<Sector>, ss: nat, sect: nat): nat
    requires WellSized(disk, ss) && ss >= 512
  {
    if sect < |disk| then CheckFs(disk[sect]) else 4
  }

  /** Start of partition i in the table of a boot sector. */
  function PartStart(s: Sector, i: nat): nat
    requires |s| >= 512 && i < 4
  {
    Load32(s, 446 + 16 * i + 8)
  }

  function CheckPart(disk: seq<Sector>, ss: nat, i: nat): nat
    requires WellSized(disk, ss) && ss >= 512 && |disk| > 0 && i < 4
  {
    var p := PartStart(disk[0], i);
    if p == 0 then 3 else CheckSector(disk, ss, p)
  }

  /** Partition i is a FAT volume, and none before it is. */
  ghost predicate FirstVolume(disk: seq<Sector>, ss: nat, i: nat)
    requires WellSized(disk, ss) && ss >= 512 && |disk| > 0 && i < 4
  {
    CheckPart(disk, ss, i) == 0 && forall j :: 0 <= j < i ==> CheckPart(disk, ss, j) >= 2
  }

  /** find_volume with automatic search: sector 0 itself, or the first partition that is a FAT volume. */
  method FindVolume(disk: seq<Sector>, ss: nat) returns (fmt: nat, bsect: nat)
    requires WellSized(disk, ss) && ss >= 512 && |disk| > 0
    ensures fmt == 0 ==> bsect < |disk| && CheckFs(disk[bsect]) == 0
    ensures CheckFs(disk[0]) != 2 ==> fmt == CheckFs(disk[0]) && bsect == 0
    ensures CheckFs(disk[0]) == 2 && fmt == 0 ==>
              exists i :: 0 <= i < 4 && bsect == PartStart(disk[0], i) && FirstVolume(disk, ss, i)
    ensures CheckFs(disk[0]) == 2 && fmt != 0 ==> forall j :: 0 <= j < 4 ==> CheckPart(disk, ss, j) >= 2
  {
    hide CheckFs, PartStart;
    fmt, bsect := CheckFs(disk[0]), 0;
    if fmt != 2 {
      return;
    }
    var i := 0;
    while i < 4
      invariant 0 <= i <= 4
      invariant forall j :: 0 <= j < i ==> CheckPart(disk, ss, j) >= 2
      invariant fmt >= 2
    {
      bsect := PartStart(disk[0], i);
      CheckRange(disk, ss, bsect);
      fmt := if bsect == 0 then 3 else CheckSector(disk, ss, bsect);
      if fmt < 2 {
        assert FirstVolume(disk, ss, i);
        return;
      }
      i := i + 1;
    }
  }

  lemma CheckRange(disk: seq<Sector>, ss: nat, sect: nat)
    requires WellSized(disk, ss) && ss >= 512
    ensures CheckSector(disk, ss, sect) != 1
  {}

  /** What mount_volume takes from the information sector of a FAT32 volume: last and free clusters. */
  function Info(s: Sector): (nat, nat)
    requires |s| >= 512
  {
    if Load32(s, 0) == 0x41615252 && Load32(s, 484) == 0x61417272 && Load32(s, 508) == 0xAA55_0000
    then (Load32(s, 492), Load32(s, 488))
    else (DWORD_MAX, DWORD_MAX)
  }

  datatype MountResult = Ok(m: Mounted, lastClst: nat, freeClst: nat) | NoFilesystem | MountDiskError

  /** mount_volume, for a volume that is not mounted yet. */
  method Mount(disk: seq<Sector>, ss: nat) returns (res: MountResult, bsect: nat)
    requires WellSized(disk, ss) && |disk| > 0
    ensures !SectorSize(ss) ==> res == MountDiskError
    ensures res.Ok? ==> bsect < |disk| && CheckFs(disk[bsect]) == 0 && Analyse(disk[bsect], ss, bsect) == Some(res.m)
    ensures res.Ok? ==>
              (res.lastClst, res.freeClst) ==
              if res.m.fsType == FAT32 && Load16(disk[bsect], 48) == 1 && bsect + 1 < |disk| then Info(disk[bsect + 1])
              else (DWORD_MAX, DWORD_MAX)
    ensures SectorSize(ss) && CheckFs(disk[0]) == 0 ==> bsect == 0 && (res.Ok? <==> Analyse(disk[0], ss, 0).Some?)
    ensures SectorSize(ss) && CheckFs(disk[0]) == 2 ==>
              forall i :: 0 <= i < 4 && FirstVolume(disk, ss, i) ==>
                bsect == PartStart(disk[0], i) && (res.Ok? <==> Analyse(disk[bsect], ss, bsect).Some?)
    ensures SectorSize(ss) && CheckFs(disk[0]) == 2 && (forall i :: 0 <= i < 4 ==> CheckPart(disk, ss, i) != 0) ==> !res.Ok?
    ensures SectorSize(ss) && CheckFs(disk[0]) != 0 && CheckFs(disk[0]) != 2 ==> !res.Ok?
  {
    hide CheckFs, CheckPart, Analyse, PartStart, Info, Load16;
    bsect := 0;
    if !SectorSize(ss) {
      return MountDiskError, 0;
    }
    var fmt;
    fmt, bsect := FindVolume(disk, ss);
    if fmt == 4 {
      return MountDiskError, bsect;
    }
    if fmt != 0 {
      return NoFilesystem, bsect;
    }
    var a := Analyse(disk[bsect], ss, bsect);
    if a.None? {
      return NoFilesystem, bsect;
    }
    var info := (DWORD_MAX, DWORD_MAX);
    if a.value.fsType == FAT32 && Load16(disk[bsect], 48) == 1 && bsect + 1 < |disk| {
      info := Info(disk[bsect + 1]);
    }
    return Ok(a.value, info.0, info.1), bsect;
  }

  // ---- The volume that a formatted drive is mounted as -------------------------------------

  /** No cluster is in use but the root directory's, on FAT32. */
  ghost predicate FreshTable(t: FatType, f: seq<nat>) {
    |f| >= 3 && forall c :: 2 <= c < |f| ==> f[c] == if t == FAT32 && c == 2 then Eoc(FAT32) else 0
  }

  /** The bytes of a filled area. */
  lemma FilledBytes(disk: seq<Sector>, ss: nat, a: nat, n: nat, head: Sector, k: nat)
    requires WellSized(disk, ss) && ss > 0 && Filled(disk, a, n, head) && |head| == ss && k < n * ss
    ensures k < |Flat(disk[a..a + n])|
    ensures Flat(disk[a..a + n])[k] == if k < ss then head[k] else 0
  {
    var t := disk[a..a + n];
    ByteInSector(t, ss, n, k);
    DivLess(k, ss, 1);
    if k < ss {
      DivMod(k, ss);
    }
  }

  /** The first bytes of a FAT. */
  lemma HeadBytes(t: FatType, ss: nat)
    requires ss >= 512
    ensures forall k :: 12 <= k < ss ==> FatHead(t, ss)[k] == 0
    ensures t == FAT12 ==> forall k :: 3 <= k < ss ==> FatHead(t, ss)[k] == 0
    ensures t == FAT16 ==> forall k :: 4 <= k < ss ==> FatHead(t, ss)[k] == 0
    ensures t == FAT32 ==> Load32(FatHead(t, ss), 8) == Eoc(FAT32)
  {
    hide Store32;
    StoredDword(Zeros(ss), 0, 0xFFFF_FFF8);
    if t == FAT12 {
      StoredDword(Zeros(ss), 0, 0xFF_FFF8);
      TopByte(Zeros(ss));
    } else if t == FAT32 {
      var a := Store32(Zeros(ss), 0, 0xFFFF_FFF8);
      StoredDword(a, 4, 0xFFFF_FFFF);
      StoredDword(Store32(a, 4, 0xFFFF_FFFF), 8, 0x0FFF_FFFF);
    }
  }

  lemma TopByte(b: Sector)
    requires |b| >= 4
    ensures Store32(b, 0, 0xFF_FFF8)[3] == 0
  {}

  /** Entries whose bytes are zero are free. */
  lemma ZeroEntry(t: FatType, b: seq<Byte>, c: nat)
    requires Offset(t, c) + Width(t) <= |b|
    requires forall k :: Offset(t, c) <= k < Offset(t, c) + Width(t) ==> b[k] == 0
    ensures Get(t, b, c) == 0
  {}

  /** A filled FAT marks every cluster free, but for the root directory on FAT32. */
  lemma FreshFat(disk: seq<Sector>, ss: nat, t: FatType, a: nat, n: nat, m: nat) returns (f: seq<nat>)
    requires WellSized(disk, ss) && SectorSize(ss) && Filled(disk, a, n, FatHead(t, ss))
    requires m >= 3 && TableBytes(t, m) <= n * ss
    ensures Encodes(t, disk[a..a + n], m, f) && FreshTable(t, f)
  {
    hide FatHead, Load32;
    var b := Flat(disk[a..a + n]);
    FlatLength(disk[a..a + n], ss);
    f := Entries(t, b, m);
    HeadBytes(t, ss);
    forall c | 2 <= c < m
      ensures f[c] == if t == FAT32 && c == 2 then Eoc(FAT32) else 0
    {
      EntryFits(t, c, m);
      forall k | Offset(t, c) <= k < Offset(t, c) + Width(t)
        ensures b[k] == if k < ss then FatHead(t, ss)[k] else 0
      {
        FilledBytes(disk, ss, a, n, FatHead(t, ss), k);
      }
      if t == FAT32 && c == 2 {
        SameDword(b, FatHead(t, ss), 8);
      } else {
        ZeroEntry(t, b, c);
      }
    }
  }

  lemma SameDword(b: seq<Byte>, h: seq<Byte>, o: nat)
    requires o + 4 <= |b| && o + 4 <= |h| && forall k :: o <= k < o + 4 ==> b[k] == h[k]
    ensures Load32(b, o) == Load32(h, o)
  {}

  lemma {:induction false} AllFree(f: seq<nat>)
    requires |f| >= 2 && forall c :: 2 <= c < |f| ==> f[c] == 0
    ensures |Free(f)| == |f| - 2
  {
    if |f| == 2 {
      assert Free(f) == {};
    } else {
      var n := |f| - 1;
      AllFree(f[..n]);
      assert Free(f) == Free(f[..n]) + {n};
    }
  }

  /** The chains of a fresh table, and its free clusters. */
  lemma FreshChains(t: FatType, f: seq<nat>)
    requires FreshTable(t, f) && |f| <= MaxClusters(t) + 2
    ensures Partitioned(f, if t == FAT32 then [[2]] else [])
    ensures |Free(f)| == if t == FAT32 then |f| - 3 else |f| - 2
  {
    if t == FAT32 {
      AllFree(f[2 := 0]);
      TakeCount(f[2 := 0], 2, f[2]);
      assert f[2 := 0][2 := f[2]] == f;
      assert InSome([[2]], 2) by { assert 2 in [[2]][0]; }
    } else {
      AllFree(f);
    }
  }

  /** A formatted drive is found, in sector 0 or through its partition table. */
  lemma FormattedFound(disk: seq<Sector>, q: Request, l: Layout)
    requires Proper(q) && Usable(q, l) && Formatted(disk, q, l)
    ensures CheckFs(disk[q.bVol]) == 0
    ensures q.bVol > 0 ==> CheckFs(disk[0]) == 2 && PartStart(disk[0], 0) == q.bVol && FirstVolume(disk, q.ss, 0)
  {
    hide Usable, Load16, Load32, Filled, InfoSays, BootSays, PowerOfTwo;
    ReadBack(disk[q.bVol], q, l);
    if q.bVol > 0 {
      assert EntrySays(disk[0], 0, EntryOf([Part(q.bVol, q.szVol)], 0));
    }
  }

  /** The room a formatted volume has, as a mounted volume needs it. */
  lemma FormattedRoom(q: Request, l: Layout)
    requires Proper(q) && Usable(q, l) && l.clusters >= 1
    ensures l.clusters <= MaxClusters(l.fsType)
    ensures SystemSize(q, l) + l.pau * (l.clusters + 2 - 2) <= q.szVol
    ensures TableBytes(l.fsType, l.clusters + 2) <= l.fatSize * q.ss
  {
    hide PowerOfTwo, TableBytes, Multiple;
    QuotientAtMost(q.szVol - SystemSize(q, l), l.pau);
    assert l.pau * (l.clusters + 2 - 2) == l.clusters * l.pau;
  }

  /** Both FATs of a formatted volume are alike. */
  lemma FormattedMirror(disk: seq<Sector>, q: Request, l: Layout)
    requires Formatted(disk, q, l) && q.nFat == 2
    ensures var b, n := FatBase(q, l), l.fatSize;
            b + 2 * n <= |disk| && disk[b + n..b + 2 * n] == disk[b..b + n]
  {
    hide BootSays, InfoSays, TableSays, FatHead;
    var b, n := FatBase(q, l), l.fatSize;
    var x, y := disk[b..b + n], disk[b + n..b + 2 * n];
    forall k | 0 <= k < n
      ensures x[k] == y[k]
    {
      assert disk[b + n + k] == disk[b + k];
    }
  }

  lemma FormattedInfo(disk: seq<Sector>, q: Request, l: Layout)
    requires Formatted(disk, q, l) && l.fsType == FAT32
    ensures Load16(disk[q.bVol], 48) == 1 && Info(disk[q.bVol + 1]) == (2, l.clusters - 1)
  {
    hide BpbSays, Load16, Load32, Filled, TableSays;
  }

  /** The volume object for a formatted drive. */
  method Attach(disk: seq<Sector>, q: Request, l: Layout, lastClst: nat, freeClst: nat) returns (fs: Volume)
    requires Proper(q) && Usable(q, l) && Formatted(disk, q, l) && l.clusters >= 1
    requires freeClst == if l.fsType == FAT32 then l.clusters - 1 else DWORD_MAX
    ensures fresh(fs) && fresh(fs.win) && fs.Valid()
    ensures fs.fsType == l.fsType && fs.ss == q.ss && fs.csize == l.pau && fs.nFats == q.nFat && fs.nFatent == l.clusters + 2
    ensures fs.fatbase == FatBase(q, l) && fs.fsize == l.fatSize && fs.database == q.bVol + SystemSize(q, l)
    ensures fs.disk == disk && fs.View() == disk
    ensures Partitioned(fs.fat, if l.fsType == FAT32 then [[2]] else []) && Counted(fs.fat, fs.freeClst)
  {
    hide Usable, Proper, Formatted, Partitioned, Based, Encodes, Counted, TableBytes, SystemSize, FreshTable;
    AttachSizes(disk, q, l);
    ghost var base, fat := AttachTable(disk, q, l);
    fs := new Volume.Mounted(l.fsType, q.ss, l.pau, q.nFat, l.clusters + 2, FatBase(q, l), l.fatSize,
                             q.bVol + SystemSize(q, l), disk, q.bVol, lastClst, freeClst, base, fat);
  }

  /** The sizes that the volume object relies on. */
  lemma AttachSizes(disk: seq<Sector>, q: Request, l: Layout)
    requires Proper(q) && Usable(q, l) && Formatted(disk, q, l) && l.clusters >= 1
    ensures 512 <= q.ss <= 4096 && q.ss % 4 == 0 && 1 <= l.pau && 1 <= q.nFat <= 2 && 1 <= FatBase(q, l)
    ensures l.clusters + 2 <= MaxClusters(l.fsType) + 2
    ensures FatBase(q, l) + (if q.nFat == 2 then 2 * l.fatSize else l.fatSize) <= q.bVol + SystemSize(q, l) <= |disk|
    ensures WellSized(disk, q.ss) && q.bVol < |disk|
    ensures q.nFat == 2 ==>
              disk[FatBase(q, l) + l.fatSize..FatBase(q, l) + 2 * l.fatSize] == disk[FatBase(q, l)..FatBase(q, l) + l.fatSize]
  {
    hide Usable, BootSays, InfoSays, TableSays, FatHead, Filled, TableBytes;
    FormattedRoom(q, l);
    UsableWrites(q, l);
    if q.nFat == 2 {
      FormattedMirror(disk, q, l);
    }
  }

  /** The table that the volume object starts with. */
  lemma AttachTable(disk: seq<Sector>, q: Request, l: Layout) returns (base: seq<nat>, fat: seq<nat>)
    requires Proper(q) && Usable(q, l) && Formatted(disk, q, l) && l.clusters >= 1
    requires FatBase(q, l) + l.fatSize <= |disk|
    ensures Based(base, l.fsType, q.ss, l.pau, l.clusters + 2, l.fatSize, q.bVol + SystemSize(q, l), |disk|)
    ensures Encodes(l.fsType, disk[FatBase(q, l)..FatBase(q, l) + l.fatSize], l.clusters + 2, fat)
    ensures Partitioned(fat, if l.fsType == FAT32 then [[2]] else [])
    ensures Counted(fat, if l.fsType == FAT32 then l.clusters - 1 else DWORD_MAX)
  {
    hide Usable, BootSays, InfoSays, TableSays, FatHead, Filled, Partitioned, Based, Encodes, Free, FreshTable, TableBytes, SystemSize;
    FormattedRoom(q, l);
    UsableWrites(q, l);
    base := ClusterBases(l.fsType, q.ss, l.pau, l.clusters + 2, l.fatSize, q.bVol + SystemSize(q, l), |disk|);
    fat := FreshFat(disk, q.ss, l.fsType, FatBase(q, l), l.fatSize, l.clusters + 2);
    EncodedLength(l.fsType, disk[FatBase(q, l)..FatBase(q, l) + l.fatSize], l.clusters + 2, fat);
    FreshChains(l.fsType, fat);
  }

  lemma EncodedLength(t: FatType, sectors: seq<Sector>, n: nat, fat: seq<nat>)
    requires Encodes(t, sectors, n, fat)
    ensures |fat| == n
  {}

  /**
  f_mkfs and then mount_volume: every volume f_mkfs accepts is mounted, with the FAT type,
  the cluster count and the base sectors it was given, exactly when alignment has left a
  cluster. The mounted volume is empty and its free clusters are counted or unknown.
  */
  method FormatAndMount(d: Drive, opt: Options, blk: nat, len: nat, vsn: nat)
    returns (made: FormatResult, res: MountResult, fs: Volume?)
    requires WellSized(d.disk, d.ss) && 0 < |d.disk| < WRAP && vsn < WRAP
    modifies d
    ensures SectorSize(d.ss) && len >= d.ss && (opt.fat || opt.fat32) ==>
              var q, au := RequestOf(opt, blk, d.ss, |d.disk|), AllocationUnit(opt.auSize, d.ss);
              q.szVol >= 128 ==> made == match Chosen(q, au, !opt.fat, opt.fat32) case Some(l) => Done(q, l) case None => Aborted
    ensures SectorSize(d.ss) && len >= d.ss && opt.fat && AllocationUnit(opt.auSize, d.ss) == 0 ==>
              (Small(RequestOf(opt, blk, d.ss, |d.disk|)) ==> made.Done? && res.Ok?)
    ensures made.Done? ==> (res.Ok? <==> made.q.szVol >= SystemSize(made.q, made.l) + made.l.pau)
    ensures made.Done? && made.q.szBlk <= 15 * made.l.pau + 1 ==> res.Ok?
    ensures made.Done? && res.Ok? ==> res.m == Expected(made.q, made.l) && made.q.szBlk > 0 && Multiple(res.m.database, made.q.szBlk)
    ensures made.Done? && res.Ok? ==> fs != null && fs.Valid() && fs.disk == d.disk
    ensures made.Done? && res.Ok? ==>
              && fs.fsType == res.m.fsType && fs.csize == res.m.csize && fs.nFats == res.m.nFats && fs.nFatent == res.m.nFatent
              && fs.fatbase == res.m.fatbase && fs.fsize == res.m.fsize && fs.database == res.m.database
    ensures made.Done? && res.Ok? ==>
              Partitioned(fs.fat, if fs.fsType == FAT32 then [[2]] else []) && Counted(fs.fat, fs.freeClst)
  {
    hide Usable, Proper, Formatted, Attempt, Chosen, RequestOf, AllocationUnit, Fits, SizeOr, Partitioned, Counted;
    if SectorSize(d.ss) && Small(RequestOf(opt, blk, d.ss, |d.disk|)) {
      SmallFits(RequestOf(opt, blk, d.ss, |d.disk|));
    }
    made := d.Format(opt, blk, len, vsn);
    res, fs := NoFilesystem, null;
    if made.Done? {
      ProperSays(made.q);
      UsableSays(made.q, made.l);
      res, fs := MountFormatted(d.disk, made.q, made.l);
    }
  }

  /** A formatted drive is mounted as what it was formatted for. */
  method MountFormatted(disk: seq<Sector>, q: Request, l: Layout) returns (res: MountResult, fs: Volume?)
    requires Proper(q) && Usable(q, l) && Formatted(disk, q, l)
    requires q.ss > 0 && l.pau > 0 && q.szBlk > 0 && Attempt(q, l.fsType == FAT32, l.pau) == Some(l)
    ensures res.Ok? <==> q.szVol >= SystemSize(q, l) + l.pau
    ensures q.szBlk <= 15 * l.pau + 1 ==> res.Ok?
    ensures res.Ok? ==> res.m == Expected(q, l) && Multiple(res.m.database, q.szBlk) && fs != null && fs.Valid() && fs.disk == disk
    ensures res.Ok? ==>
              && fs.fsType == res.m.fsType && fs.csize == res.m.csize && fs.nFats == res.m.nFats && fs.nFatent == res.m.nFatent
              && fs.fatbase == res.m.fatbase && fs.fsize == res.m.fsize && fs.database == res.m.database
    ensures res.Ok? ==> Partitioned(fs.fat, if fs.fsType == FAT32 then [[2]] else []) && Counted(fs.fat, fs.freeClst)
  {
    hide Usable, Proper, Formatted, Attempt, CheckFs, PartStart, CheckPart, Analyse, Info, Partitioned, Counted, Load16;
    FormattedSize(disk, q, l);
    FormattedFound(disk, q, l);
    FormattedReads(disk, q, l);
    ClusterLeftIff(q, l);
    if q.szBlk <= 15 * l.pau + 1 {
      SmallBlocks(q, l);
    }
    var bsect;
    fs := null;
    res, bsect := Mount(disk, q.ss);
    if res.Ok? {
      if l.fsType == FAT32 {
        FormattedInfo(disk, q, l);
      }
      fs := Attach(disk, q, l, res.lastClst, res.freeClst);
    }
  }

  lemma FormattedSize(disk: seq<Sector>, q: Request, l: Layout)
    requires Proper(q) && Usable(q, l) && Formatted(disk, q, l)
    ensures q.bVol + 1 < |disk| && SectorSize(q.ss) && WellSized(disk, q.ss) && (q.bVol == 0 || q.bVol == 63)
    ensures Multiple(q.bVol + SystemSize(q, l), q.szBlk)
  {}

  lemma FormattedReads(disk: seq<Sector>, q: Request, l: Layout)
    requires Proper(q) && Usable(q, l) && Formatted(disk, q, l)
    ensures Analyse(disk[q.bVol], q.ss, q.bVol) == if l.clusters >= 1 then Some(Expected(q, l)) else None
  {
    hide BootSays, Usable;
    ReadBack(disk[q.bVol], q, l);
  }
}
