/** f_mkfs and create_partition: writing a FAT volume and its partition table to a drive. */
module FatFormat {
  import opened Optional
  import opened Sectors
  import opened FatTable
  import opened FatLayout

  const SECTORS_PER_TRACK := 63

  function Zeros(n: nat): (s: Sector)
    ensures |s| == n && forall i :: 0 <= i < n ==> s[i] == 0
  {
    seq(n, i requires 0 <= i < n => 0)
  }

  function Copy(b: Sector, i: nat, x: seq<Byte>): (r: Sector)
    requires i + |x| <= |b|
    ensures |r| == |b|
    ensures forall j :: 0 <= j < |b| ==> r[j] == if i <= j < i + |x| then x[j - i] else b[j]
  {
    b[..i] + x + b[i + |x|..]
  }

  const FAT32_NAME: seq<Byte> := [0x46, 0x41, 0x54, 0x33, 0x32, 0x20, 0x20, 0x20]
  const FAT_NAME: seq<Byte> := [0x46, 0x41, 0x54, 0x20, 0x20, 0x20, 0x20, 0x20]
  const NO_LABEL: seq<Byte> := [0x4E, 0x4F, 0x20, 0x4E, 0x41, 0x4D, 0x45, 0x20, 0x20, 0x20, 0x20]
  const JUMP_AND_OEM: seq<Byte> := [0xEB, 0xFE, 0x90, 0x4D, 0x53, 0x44, 0x4F, 0x53, 0x35, 0x2E, 0x30]

  /** The fields of a boot sector up to the number of root directory entries. */
  ghost predicate AreasSay(s: Sector, q: Request, l: Layout) {
    && |s| >= 512
    && s[0] == 0xEB
    && Load16(s, 11) == q.ss
    && s[13] == l.pau
    && Load16(s, 14) == l.rsv
    && s[16] == q.nFat
    && Load16(s, 17) == (if l.fsType == FAT32 then 0 else q.nRoot)
  }

  /** The fields of a boot sector that do not depend on the FAT type's own part. */
  ghost predicate BpbSays(s: Sector, q: Request, l: Layout) {
    && |s| >= 512 && AreasSay(s, q, l)
    && Load16(s, 19) == (if q.szVol < 0x1_0000 then q.szVol else 0)
    && Load32(s, 32) == (if q.szVol < 0x1_0000 then 0 else q.szVol)
    && s[21] == 0xF8 && Load32(s, 28) == q.bVol
  }

  /** The fields of a boot sector in its FAT type's own part. */
  ghost predicate OwnPartSays(s: Sector, l: Layout) {
    && |s| >= 512
    && Load16(s, 22) == (if l.fsType == FAT32 then 0 else l.fatSize)
    && (l.fsType == FAT32 ==>
          && Load32(s, 36) == l.fatSize
          && Load16(s, 42) == 0
          && Load32(s, 44) == 2
          && Load16(s, 48) == 1 && Load16(s, 50) == 6
          && s[82..90] == FAT32_NAME)
  }

  /** What the boot sector of a volume tells mount. */
  ghost predicate BootSays(s: Sector, q: Request, l: Layout) {
    BpbSays(s, q, l) && OwnPartSays(s, l) && Load16(s, 510) == 0xAA55
  }

  /** Values that fit the fields of a boot sector. */
  ghost predicate FieldsFit(q: Request, l: Layout) {
    && SectorSize(q.ss) && 1 <= l.pau <= 128 && l.rsv < 0x1_0000 && 1 <= q.nFat <= 2
    && q.nRoot <= 32768 && q.szVol < WRAP && q.bVol < WRAP && l.fatSize < WRAP
    && (l.fsType != FAT32 ==> l.fatSize < 0x1_0000)
  }

  lemma Word(val: nat)
    requires val < 0x1_0000
    ensures val % 0x100 + 0x100 * (val / 0x100 % 0x100) == val
  {}

  lemma StoredWord(b: seq<Byte>, i: nat, val: nat)
    requires i + 2 <= |b| && val < 0x1_0000
    ensures |Store16(b, i, val)| == |b| && Load16(Store16(b, i, val), i) == val
    ensures forall j :: 0 <= j < |b| && !(i <= j < i + 2) ==> Store16(b, i, val)[j] == b[j]
  {
    Word(val);
  }

  lemma StoredDword(b: seq<Byte>, i: nat, val: nat)
    requires i + 4 <= |b| && val < WRAP
    ensures |Store32(b, i, val)| == |b| && Load32(Store32(b, i, val), i) == val
    ensures forall j :: 0 <= j < |b| && !(i <= j < i + 4) ==> Store32(b, i, val)[j] == b[j]
  {
    Load32Store32(b, i, val);
  }

  /** The boot sector, up to the number of root directory entries. */
  method MakeAreas(q: Request, l: Layout) returns (buf: Sector)
    requires FieldsFit(q, l)
    ensures |buf| == q.ss && AreasSay(buf, q, l)
    ensures forall j :: 19 <= j < q.ss ==> buf[j] == 0
  {
    hide Store16;
    buf := Copy(Zeros(q.ss), 0, JUMP_AND_OEM);
    StoredWord(buf, 11, q.ss);
    buf := Store16(buf, 11, q.ss);
    buf := buf[13 := l.pau];
    StoredWord(buf, 14, l.rsv);
    buf := Store16(buf, 14, l.rsv);
    buf := buf[16 := q.nFat];
    var nRoot := if l.fsType == FAT32 then 0 else q.nRoot;
    StoredWord(buf, 17, nRoot);
    buf := Store16(buf, 17, nRoot);
  }

  lemma AreasKept(b: Sector, c: Sector, q: Request, l: Layout)
    requires AreasSay(b, q, l) && |b| == |c|
    requires forall j :: 0 <= j < 19 ==> c[j] == b[j]
    ensures AreasSay(c, q, l)
  {}

  /** The boot sector, up to its FAT type's own part. */
  method MakeBpb(q: Request, l: Layout) returns (buf: Sector)
    requires FieldsFit(q, l)
    ensures |buf| == q.ss && BpbSays(buf, q, l)
    ensures forall j :: 36 <= j < q.ss || 22 <= j < 24 ==> buf[j] == 0
  {
    hide Store16, Store32, AreasSay;
    buf := MakeAreas(q, l);
    ghost var b := buf;
    if q.szVol < 0x1_0000 {
      StoredWord(buf, 19, q.szVol);
      buf := Store16(buf, 19, q.szVol);
    } else {
      StoredDword(buf, 32, q.szVol);
      buf := Store32(buf, 32, q.szVol);
    }
    buf := buf[21 := 0xF8];
    StoredWord(buf, 24, 63);
    buf := Store16(buf, 24, 63);
    StoredWord(buf, 26, 255);
    buf := Store16(buf, 26, 255);
    StoredDword(buf, 28, q.bVol);
    buf := Store32(buf, 28, q.bVol);
    AreasKept(b, buf, q, l);
  }

  /** The boot sector of the volume. */
  method MakeBoot(q: Request, l: Layout, vsn: nat) returns (buf: Sector)
    requires FieldsFit(q, l) && vsn < WRAP
    ensures |buf| == q.ss && BootSays(buf, q, l)
  {
    hide Store16, Store32, BpbSays;
    buf := MakeBpb(q, l);
    ghost var b := buf;
    if l.fsType == FAT32 {
      StoredDword(buf, 67, vsn);
      buf := Store32(buf, 67, vsn);
      StoredDword(buf, 36, l.fatSize);
      buf := Store32(buf, 36, l.fatSize);
      StoredDword(buf, 44, 2);
      buf := Store32(buf, 44, 2);
      StoredWord(buf, 48, 1);
      buf := Store16(buf, 48, 1);
      StoredWord(buf, 50, 6);
      buf := Store16(buf, 50, 6);
      buf := buf[64 := 0x80][66 := 0x29];
      buf := Copy(buf, 71, NO_LABEL + FAT32_NAME);
      assert buf[82..90] == FAT32_NAME;
    } else {
      StoredDword(buf, 39, vsn);
      buf := Store32(buf, 39, vsn);
      StoredWord(buf, 22, l.fatSize);
      buf := Store16(buf, 22, l.fatSize);
      buf := buf[36 := 0x80][38 := 0x29];
      buf := Copy(buf, 43, NO_LABEL + FAT_NAME);
    }
    StoredWord(buf, 510, 0xAA55);
    buf := Store16(buf, 510, 0xAA55);
    assert OwnPartSays(buf, l);
    BpbKept(b, buf, q, l);
  }

  lemma BpbKept(b: Sector, c: Sector, q: Request, l: Layout)
    requires BpbSays(b, q, l) && |b| == |c|
    requires forall j :: 0 <= j < 36 && !(22 <= j < 24) ==> c[j] == b[j]
    ensures BpbSays(c, q, l)
  {
    hide AreasSay;
    AreasKept(b, c, q, l);
  }

  /** The information sector of a FAT32 volume. */
  ghost predicate InfoSays(s: Sector, free: nat, last: nat) {
    && |s| >= 512
    && Load32(s, 0) == 0x41615252 && Load32(s, 484) == 0x61417272 && Load32(s, 508) == 0xAA55_0000
    && Load32(s, 488) == free && Load32(s, 492) == last
  }

  method MakeInfo(ss: nat, clusters: nat) returns (buf: Sector)
    requires SectorSize(ss) && 1 <= clusters < WRAP
    ensures |buf| == ss && InfoSays(buf, clusters - 1, 2)
  {
    hide Store16, Store32;
    buf := Zeros(ss);
    StoredDword(buf, 0, 0x41615252);
    buf := Store32(buf, 0, 0x41615252);
    StoredDword(buf, 484, 0x61417272);
    buf := Store32(buf, 484, 0x61417272);
    StoredDword(buf, 488, clusters - 1);
    buf := Store32(buf, 488, clusters - 1);
    StoredDword(buf, 492, 2);
    buf := Store32(buf, 492, 2);
    StoredWord(buf, 510, 0xAA55);
    buf := Store16(buf, 510, 0xAA55);
  }

  // ---- The partition table ---------------------------------------------------------------

  datatype Part = Part(start: nat, size: nat)

  /** A requested size: up to 100 it is a percentage of the drive. */
  function Asked(x: nat, szDrv: nat): nat {
    if x > 100 then x else if x == 100 then szDrv else szDrv / 100 * x
  }

  /** The first sector behind the partitions. */
  function NextStart(parts: seq<Part>): nat {
    if parts == [] then SECTORS_PER_TRACK else parts[|parts| - 1].start + parts[|parts| - 1].size
  }

  /** As large as asked and as the drive allows. */
  function Clipped(start: nat, x: nat, szDrv: nat): int {
    if start + Asked(x, szDrv) > szDrv then szDrv - start else Asked(x, szDrv)
  }

  /** Partitions one after the other from the first track on. */
  ghost predicate Consecutive(parts: seq<Part>, plst: seq<nat>, szDrv: nat) {
    parts != [] ==>
      var n := |parts| - 1;
      var p := parts[n];
      && n < |plst| && Consecutive(parts[..n], plst, szDrv)
      && p.start == NextStart(parts[..n])
      && p.size == Clipped(p.start, plst[n], szDrv)
      && 0 < p.size && p.start + p.size <= szDrv
  }

  /** Consecutive partitions do not overlap and lie on the drive. */
  lemma {:induction false} PartsApart(parts: seq<Part>, plst: seq<nat>, szDrv: nat, i: nat, j: nat)
    requires Consecutive(parts, plst, szDrv) && i < j < |parts|
    ensures parts[i].start + parts[i].size <= parts[j].start < parts[j].start + parts[j].size <= szDrv
  {
    hide Clipped;
    var n := |parts| - 1;
    if j < n {
      PartsApart(parts[..n], plst, szDrv, i, j);
    } else if i + 1 < n {
      PartsApart(parts[..n], plst, szDrv, i, n - 1);
    }
  }

  ghost predicate EntrySays(s: Sector, i: nat, p: Part) {
    && |s| >= 512 && i < 4
    && Load32(s, 446 + 16 * i + 8) == p.start
    && Load32(s, 446 + 16 * i + 12) == p.size
  }

  /** Unused entries are all zero. */
  function EntryOf(parts: seq<Part>, i: nat): Part { if i < |parts| then parts[i] else Part(0, 0) }

  ghost predicate TableSays(s: Sector, parts: seq<Part>) {
    && |s| >= 512 && |parts| <= 4
    && forall i :: 0 <= i < 4 ==> EntrySays(s, i, EntryOf(parts, i))
  }

  method MakeEntry(s: Sector, i: nat, p: Part, sys: Byte) returns (buf: Sector)
    requires |s| >= 512 && i < 4 && p.start < WRAP && p.size < WRAP
    ensures |buf| == |s| && EntrySays(buf, i, p) && buf[450 + 16 * i] == sys
    ensures forall j :: 0 <= j < |s| && !(446 + 16 * i <= j < 462 + 16 * i) ==> buf[j] == s[j]
  {
    hide Store32;
    var o := 446 + 16 * i;
    StoredDword(s, o + 8, p.start);
    buf := Store32(s, o + 8, p.start);
    StoredDword(buf, o + 12, p.size);
    buf := Store32(buf, o + 12, p.size);
    buf := buf[o + 4 := sys];
  }

  lemma EntryKept(s: Sector, t: Sector, k: nat, i: nat, p: Part)
    requires EntrySays(s, i, p) && |t| == |s| && i != k
    requires forall j :: 0 <= j < |s| && !(446 + 16 * k <= j < 462 + 16 * k) ==> t[j] == s[j]
    ensures EntrySays(t, i, p)
  {}

  /** create_partition, the MBR part. */
  method MakeTable(ss: nat, szDrv: nat, plst: seq<nat>, sys: Byte) returns (buf: Sector, parts: seq<Part>)
    requires SectorSize(ss) && szDrv < WRAP
    requires |plst| >= 4 || 0 in plst
    ensures |buf| == ss && buf[0] == 0 && Load16(buf, 510) == 0xAA55
    ensures Consecutive(parts, plst, szDrv) && TableSays(buf, parts)
    ensures forall i :: 0 <= i < |parts| ==> buf[450 + 16 * i] == sys
    ensures |parts| < 4 ==>
              || szDrv <= NextStart(parts)
              || (|parts| < |plst| && Asked(plst[|parts|], szDrv) == 0)
  {
    hide Load32, Asked, EntrySays, Consecutive;
    buf, parts := Zeros(ss), [];
    var i, nxt := 0, SECTORS_PER_TRACK;
    EmptyTable(buf, plst, szDrv);
    while i < 4 && nxt < szDrv
      invariant 0 <= i <= 4 && i == |parts| && |buf| == ss
      invariant i <= |plst| && 0 !in plst[..i]
      invariant Consecutive(parts, plst, szDrv) && TableSays(buf, parts)
      invariant forall j :: 0 <= j < i ==> buf[450 + 16 * j] == sys
      invariant nxt == NextStart(parts)
      invariant buf[0] == 0 && buf[510] == 0 == buf[511]
    {
      assert plst == plst[..i] + plst[i..];
      AskedNothing(szDrv);
      var size := Asked(plst[i], szDrv);
      if nxt + size > szDrv {
        size := szDrv - nxt;
      }
      if size == 0 {
        break;
      }
      ghost var was := buf;
      buf := MakeEntry(buf, i, Part(nxt, size), sys);
      var more := parts + [Part(nxt, size)];
      forall j | 0 <= j < 4
        ensures EntrySays(buf, j, EntryOf(more, j))
      {
        if j != i {
          EntryKept(was, buf, i, j, EntryOf(parts, j));
        }
      }
      OneMorePart(parts, plst, szDrv, Part(nxt, size));
      parts := more;
      assert plst[..i + 1] == plst[..i] + [plst[i]];
      nxt := nxt + size;
      i := i + 1;
    }
    ghost var was := buf;
    StoredWord(buf, 510, 0xAA55);
    buf := Store16(buf, 510, 0xAA55);
    TableKept(was, buf, parts);
  }

  lemma OneMorePart(parts: seq<Part>, plst: seq<nat>, szDrv: nat, p: Part)
    requires Consecutive(parts, plst, szDrv) && |parts| < |plst|
    requires p.start == NextStart(parts) < szDrv && 0 < p.size == Clipped(p.start, plst[|parts|], szDrv)
    ensures Consecutive(parts + [p], plst, szDrv)
  {
    hide Asked;
    assert (parts + [p])[..|parts|] == parts;
  }

  lemma AskedNothing(szDrv: nat)
    ensures Asked(0, szDrv) == 0
  {}

  lemma EmptyTable(s: Sector, plst: seq<nat>, szDrv: nat)
    requires |s| >= 512 && forall j :: 0 <= j < |s| ==> s[j] == 0
    ensures TableSays(s, []) && Consecutive([], plst, szDrv)
  {}

  lemma TableKept(s: Sector, t: Sector, parts: seq<Part>)
    requires TableSays(s, parts) && |t| == |s|
    requires forall j :: 0 <= j < 510 ==> t[j] == s[j]
    ensures TableSays(t, parts)
  {
    forall i | 0 <= i < 4
      ensures EntrySays(t, i, EntryOf(parts, i))
    {
      assert EntrySays(s, i, EntryOf(parts, i));
    }
  }

  // ---- Writing the volume ----------------------------------------------------------------

  /** The start of a FAT: the entries 0 and 1, and on FAT32 the root directory's cluster 2. */
  function FatHead(t: FatType, ss: nat): (s: Sector)
    requires ss >= 12
    ensures |s| == ss
  {
    match t
    case FAT12 => Store32(Zeros(ss), 0, 0xFF_FFF8)
    case FAT16 => Store32(Zeros(ss), 0, 0xFFFF_FFF8)
    case FAT32 => Store32(Store32(Store32(Zeros(ss), 0, 0xFFFF_FFF8), 4, 0xFFFF_FFFF), 8, 0x0FFF_FFFF)
  }

  /** Sectors a .. a+n-1: head, then zeros. */
  ghost predicate Filled(disk: seq<Sector>, a: nat, n: nat, head: Sector) {
    a + n <= |disk| && forall s :: a <= s < a + n ==> disk[s] == if s == a then head else Zeros(|head|)
  }

  function FatBase(q: Request, l: Layout): nat { q.bVol + l.rsv }

  function RootBase(q: Request, l: Layout): nat { q.bVol + l.rsv + FatArea(q, l) }

  function RootLength(l: Layout): nat { if l.fsType == FAT32 then l.pau else l.dirSize }

  /** A freshly formatted volume. */
  ghost predicate Formatted(disk: seq<Sector>, q: Request, l: Layout) {
    && WellSized(disk, q.ss) && q.bVol + q.szVol == |disk| && q.szVol > 7 && SectorSize(q.ss)
    && BootSays(disk[q.bVol], q, l)
    && (l.fsType == FAT32 ==> l.clusters >= 1 && InfoSays(disk[q.bVol + 1], l.clusters - 1, 2))
    && Filled(disk, FatBase(q, l), l.fatSize, FatHead(l.fsType, q.ss))
    && (q.nFat == 2 ==> Filled(disk, FatBase(q, l) + l.fatSize, l.fatSize, FatHead(l.fsType, q.ss)))
    && Filled(disk, RootBase(q, l), RootLength(l), Zeros(q.ss))
    && (q.bVol > 0 ==> disk[0][0] == 0 && Load16(disk[0], 510) == 0xAA55 && TableSays(disk[0], [Part(q.bVol, q.szVol)]))
  }

  /** The partition type of a volume: FAT12, small FAT16, larger FAT12 or FAT16, or FAT32. */
  predicate TypeFits(sys: Byte, t: FatType, szVol: nat) {
    match sys
    case 0x01 => t == FAT12 && szVol < 0x1_0000
    case 0x04 => t == FAT16 && szVol < 0x1_0000
    case 0x06 => t != FAT32 && szVol >= 0x1_0000
    case 0x0C => t == FAT32
    case _ => false
  }

  /** The copies of the boot and information sectors of FAT32, and the partition type. */
  ghost predicate Marked(disk: seq<Sector>, q: Request, l: Layout) {
    && q.bVol + 7 < |disk| && (forall s :: 0 <= s < |disk| ==> |disk[s]| >= 512)
    && (l.fsType == FAT32 ==> disk[q.bVol + 6] == disk[q.bVol] && disk[q.bVol + 7] == disk[q.bVol + 1])
    && (q.bVol > 0 ==> TypeFits(disk[0][450], l.fsType, q.szVol))
  }

  /** The block size to align to: the option, or what the drive reports, or 1 if that is unusable. */
  function BlockSize(align: nat, blk: nat): (b: nat)
    ensures 1 <= b <= 0x8000 && PowerOfTwo(b)
  {
    var x := if align == 0 then blk else align;
    if x == 0 || x > 0x8000 || !PowerOfTwo(x) then 1 else x
  }

  /** Options of f_mkfs. */
  datatype Options = Options(fat: bool, fat32: bool, sfd: bool, nFat: nat, nRoot: nat, auSize: nat, align: nat)

  datatype FormatResult = Done(q: Request, l: Layout) | DiskError | NotEnoughCore | Aborted | InvalidParameter

  /** The request that f_mkfs makes of its options, with unusable ones replaced, on a drive of n sectors. */
  function RequestOf(opt: Options, blk: nat, ss: nat, n: nat): (q: Request)
    requires SectorSize(ss)
    ensures n < WRAP && q.szVol >= 128 ==> Proper(q)
    ensures q.bVol + q.szVol == n && q.ss == ss && q.szBlk >= 1
  {
    var bVol := if !opt.sfd && n > SECTORS_PER_TRACK then SECTORS_PER_TRACK else 0;
    Request(ss, bVol, n - bVol, BlockSize(opt.align, blk), if 1 <= opt.nFat <= 2 then opt.nFat else 1,
            if 1 <= opt.nRoot <= 32768 && opt.nRoot % (ss / 32) == 0 then opt.nRoot else 512)
  }

  class Drive {
    const ss: nat
    var disk: seq<Sector>

    constructor (ss: nat, disk: seq<Sector>)
      requires WellSized(disk, ss)
      ensures this.ss == ss && this.disk == disk
    {
      this.ss, this.disk := ss, disk;
    }

    /** disk_write of n sectors from a buffer. */
    method Write(sect: nat, d: seq<Sector>)
      requires sect + |d| <= |disk| && WellSized(disk, ss) && WellSized(d, ss)
      modifies this
      ensures |disk| == |old(disk)| && WellSized(disk, ss)
      ensures forall s :: 0 <= s < |disk| ==> disk[s] == if sect <= s < sect + |d| then d[s - sect] else old(disk)[s]
    {
      disk := disk[..sect] + d + disk[sect + |d|..];
    }

    /** Fill an area through a buffer of zeros whose first sector may be another one. */
    method Fill(a: nat, n: nat, head: Sector, szBuf: nat)
      requires a + n <= |disk| && WellSized(disk, ss) && |head| == ss && szBuf > 0 && n > 0
      modifies this
      ensures |disk| == |old(disk)| && WellSized(disk, ss)
      ensures Filled(disk, a, n, head)
      ensures forall s :: 0 <= s < |disk| && !(a <= s < a + n) ==> disk[s] == old(disk)[s]
    {
      var buf: seq<Sector> := [head] + seq(szBuf - 1, i => Zeros(ss));
      var sect, nsect := a, n;
      while nsect > 0
        invariant sect + nsect == a + n && a <= sect && 0 <= nsect
        invariant |buf| == szBuf && WellSized(buf, ss)
        invariant forall i :: 0 <= i < szBuf ==> buf[i] == if i == 0 && sect == a then head else Zeros(ss)
        invariant |disk| == |old(disk)| && WellSized(disk, ss)
        invariant forall s :: a <= s < sect ==> disk[s] == if s == a then head else Zeros(ss)
        invariant forall s :: 0 <= s < |disk| && !(a <= s < sect) ==> disk[s] == old(disk)[s]
      {
        var k := if nsect > szBuf then szBuf else nsect;
        Write(sect, buf[..k]);
        buf := buf[0 := Zeros(ss)];
        sect, nsect := sect + k, nsect - k;
      }
    }

    /** The boot sector and, on FAT32, its backup and the information sectors. */
    method WriteBoot(q: Request, l: Layout, vsn: nat)
      requires WellSized(disk, ss) && q.bVol + q.szVol == |disk| && q.szVol > 7 && q.ss == ss && vsn < WRAP
      requires FieldsFit(q, l) && (l.fsType == FAT32 ==> 1 <= l.clusters < WRAP)
      modifies this
      ensures |disk| == |old(disk)| && WellSized(disk, ss)
      ensures BootSays(disk[q.bVol], q, l)
      ensures l.fsType == FAT32 ==> InfoSays(disk[q.bVol + 1], l.clusters - 1, 2)
      ensures l.fsType == FAT32 ==> disk[q.bVol + 6] == disk[q.bVol] && disk[q.bVol + 7] == disk[q.bVol + 1]
      ensures forall s :: q.bVol + (if l.fsType == FAT32 then 8 else 1) <= s < |disk| ==> disk[s] == old(disk)[s]
    {
      hide BootSays, InfoSays;
      var buf := MakeBoot(q, l, vsn);
      Write(q.bVol, [buf]);
      if l.fsType == FAT32 {
        Write(q.bVol + 6, [buf]);
        var info := MakeInfo(ss, l.clusters);
        Write(q.bVol + 7, [info]);
        Write(q.bVol + 1, [info]);
      }
    }

    /** The FATs and the root directory. */
    method WriteAreas(q: Request, l: Layout, szBuf: nat)
      requires WellSized(disk, ss) && q.bVol + q.szVol == |disk| && q.ss == ss && SectorSize(ss) && szBuf > 0
      requires 1 <= q.nFat <= 2 && l.fatSize > 0 && RootLength(l) > 0
      requires l.rsv + FatArea(q, l) + RootLength(l) <= q.szVol
      modifies this
      ensures |disk| == |old(disk)| && WellSized(disk, ss)
      ensures Filled(disk, FatBase(q, l), l.fatSize, FatHead(l.fsType, q.ss))
      ensures q.nFat == 2 ==> Filled(disk, FatBase(q, l) + l.fatSize, l.fatSize, FatHead(l.fsType, q.ss))
      ensures Filled(disk, RootBase(q, l), RootLength(l), Zeros(q.ss))
      ensures forall s :: 0 <= s < |disk| && !(FatBase(q, l) <= s < RootBase(q, l) + RootLength(l)) ==> disk[s] == old(disk)[s]
    {
      hide FatHead;
      var sect := FatBase(q, l);
      Fill(sect, l.fatSize, FatHead(l.fsType, ss), szBuf);
      sect := sect + l.fatSize;
      if q.nFat == 2 {
        Fill(sect, l.fatSize, FatHead(l.fsType, ss), szBuf);
        sect := sect + l.fatSize;
      }
      Fill(sect, RootLength(l), Zeros(ss), szBuf);
    }

    /** Writing a usable layout to the drive. */
    method WriteVolume(q: Request, l: Layout, vsn: nat, szBuf: nat)
      requires WellSized(disk, ss) && q.ss == ss && Proper(q) && q.bVol + q.szVol == |disk|
      requires Usable(q, l) && vsn < WRAP && szBuf > 0
      modifies this
      ensures |disk| == |old(disk)| && Formatted(disk, q, l) && Marked(disk, q, l)
      ensures forall s :: RootBase(q, l) + RootLength(l) <= s < |disk| ==> disk[s] == old(disk)[s]
    {
      hide BootSays, InfoSays, FatHead, Usable, FieldsFit, TableSays;
      UsableWrites(q, l);
      WriteBoot(q, l, vsn);
      WriteAreas(q, l, szBuf);
      if q.bVol > 0 {
        WriteTable(q, l);
      }
    }

    /**
    f_mkfs for FAT volumes. blk is the block size the drive reports, len the size of the
    working buffer, vsn the serial number. When it succeeds the drive holds a formatted volume.
    */
    method Format(opt: Options, blk: nat, len: nat, vsn: nat) returns (res: FormatResult)
      requires WellSized(disk, ss) && |disk| < WRAP && vsn < WRAP
      modifies this
      ensures |disk| == |old(disk)| && (!res.Done? ==> disk == old(disk))
      ensures res == DiskError <==> !SectorSize(ss)
      ensures res == NotEnoughCore <==> SectorSize(ss) && len < ss
      ensures SectorSize(ss) && len >= ss ==>
                var q, au := RequestOf(opt, blk, ss, |disk|), AllocationUnit(opt.auSize, ss);
                && (res == InvalidParameter <==> q.szVol >= 128 && !opt.fat && !opt.fat32)
                && (q.szVol < 128 ==> res == Aborted)
                && (q.szVol >= 128 && (opt.fat || opt.fat32) ==>
                      && res == (match Chosen(q, au, !opt.fat, opt.fat32) case Some(l) => Done(q, l) case None => Aborted)
                      && (Fits(q, !opt.fat, SizeOr(q, au, !opt.fat)) ==>
                            Attempt(q, !opt.fat, SizeOr(q, au, !opt.fat)).Some? &&
                            res == Done(q, Attempt(q, !opt.fat, SizeOr(q, au, !opt.fat)).value))
                      && (au != 0 && opt.fat != opt.fat32 ==> (res.Done? <==> Fits(q, opt.fat32, au))))
      ensures res.Done? ==> res.q.ss == ss && Proper(res.q) && Usable(res.q, res.l) && Formatted(disk, res.q, res.l) && Marked(disk, res.q, res.l)
      ensures res.Done? ==> res.q.bVol == (if opt.sfd then 0 else 63) && res.q.szBlk == BlockSize(opt.align, blk)
      ensures res.Done? ==> Attempt(res.q, res.l.fsType == FAT32, res.l.pau) == Some(res.l)
      ensures res.Done? ==> (if res.l.fsType == FAT32 then opt.fat32 else opt.fat)
      ensures res.Done? ==>
                forall s :: RootBase(res.q, res.l) + RootLength(res.l) <= s < |disk| ==> disk[s] == old(disk)[s]
    {
      hide Usable, Attempt, Formatted, Marked, PowerOfTwo, Fits, Chosen, SizeOr;
      if !SectorSize(ss) {
        return DiskError;
      }
      var nFat := if 1 <= opt.nFat <= 2 then opt.nFat else 1;
      var nRoot := if 1 <= opt.nRoot <= 32768 && opt.nRoot % (ss / 32) == 0 then opt.nRoot else 512;
      var szAu := AllocationUnit(opt.auSize, ss);
      if len < ss {
        return NotEnoughCore;
      }
      var bVol, szVol := 0, |disk|;
      if !opt.sfd && szVol > SECTORS_PER_TRACK {
        bVol, szVol := SECTORS_PER_TRACK, szVol - SECTORS_PER_TRACK;
      }
      if szVol < 128 {
        return Aborted;
      }
      if !opt.fat && !opt.fat32 {
        return InvalidParameter;
      }
      var q := Request(ss, bVol, szVol, BlockSize(opt.align, blk), nFat, nRoot);
      assert q == RequestOf(opt, blk, ss, |disk|);
      FitHasCandidate(q, !opt.fat, SizeOr(q, szAu, !opt.fat));
      var r := ChooseLayout(q, szAu, opt.fat, opt.fat32);
      if r.None? {
        return Aborted;
      }
      WriteVolume(q, r.value, vsn, len / ss);
      return Done(q, r.value);
    }

    /** The system identifier of the partition. */
    function SystemId(q: Request, l: Layout): Byte {
      if l.fsType == FAT32 then 0x0C
      else if q.szVol >= 0x1_0000 then 0x06
      else if l.fsType == FAT16 then 0x04
      else 0x01
    }

    /** A single partition over the drive from the first track on. */
    method WriteTable(q: Request, l: Layout)
      requires WellSized(disk, ss) && q.ss == ss && SectorSize(ss) && |disk| < WRAP
      requires q.bVol == 63 && q.bVol + q.szVol == |disk| && q.szVol >= 128
      modifies this
      ensures |disk| == |old(disk)| && WellSized(disk, ss)
      ensures disk[0][0] == 0 && Load16(disk[0], 510) == 0xAA55 && TableSays(disk[0], [Part(q.bVol, q.szVol)])
      ensures |disk[0]| >= 512 && TypeFits(disk[0][450], l.fsType, q.szVol)
      ensures forall s :: 0 < s < |disk| ==> disk[s] == old(disk)[s]
    {
      var buf, parts := MakeTable(ss, |disk|, [q.szVol, 0], SystemId(q, l));
      SinglePartition(parts, q.szVol, |disk|);
      assert buf[450 + 16 * 0] == SystemId(q, l);
      Write(0, [buf]);
    }
  }

  lemma FitHasCandidate(q: Request, fat32: bool, pau: nat)
    requires q.ss > 0 && pau > 0 && q.szBlk > 0
    ensures Fits(q, fat32, pau) ==> Attempt(q, fat32, pau).Some?
  {}

  /** A usable layout can be written down. */
  lemma UsableWrites(q: Request, l: Layout)
    requires Proper(q) && Usable(q, l)
    ensures FieldsFit(q, l) && RootLength(l) > 0 && l.fatSize > 0
    ensures l.fsType == FAT32 ==> 1 <= l.clusters < WRAP && l.rsv >= 32
    ensures l.rsv >= 1 && l.rsv + FatArea(q, l) + RootLength(l) <= q.szVol
  {
    hide PowerOfTwo, TableBytes;
    var x := q.szVol - SystemSize(q, l);
    QuotientAtMost(x, l.pau);
    if l.fsType == FAT32 {
      MulMono(1, l.clusters, l.pau);
    } else {
      Factor(l.dirSize, q.ss / 32, q.nRoot);
    }
  }

  lemma Factor(d: nat, k: nat, n: nat)
    requires d * k == n > 0
    ensures d > 0
  {}

  lemma SinglePartition(parts: seq<Part>, szVol: nat, szDrv: nat)
    requires Consecutive(parts, [szVol, 0], szDrv) && szVol >= 128 && szDrv == 63 + szVol
    requires |parts| < 4 ==> szDrv <= NextStart(parts) || (|parts| < 2 && Asked([szVol, 0][|parts|], szDrv) == 0)
    ensures parts == [Part(63, szVol)]
  {
    assert |parts| >= 1;
    assert parts[..1][..0] == [];
    if |parts| == 1 {
      assert parts[..0] == [];
    }
  }
}
