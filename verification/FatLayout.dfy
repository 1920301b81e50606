/** How f_mkfs lays a FAT volume out: FAT type, cluster size, and the size of every area. */
module FatLayout {
  import opened Optional
  import opened Sectors
  import opened FatTable

  const WRAP := 0x1_0000_0000

  /** What a 32-bit variable holds. */
  function U32(x: int): nat { x % WRAP }

  /** The test x & (x - 1) == 0 for x > 0. */
  predicate PowerOfTwo(x: nat) {
    x == 1 || (x > 1 && x % 2 == 0 && PowerOfTwo(x / 2))
  }

  predicate SectorSize(ss: nat) { ss == 512 || ss == 1024 || ss == 2048 || ss == 4096 }

  /** Where the volume lies on the drive and what the caller asks for. */
  datatype Request = Request(
    ss: nat,      // sector size [byte]
    bVol: nat,    // first sector of the volume
    szVol: nat,   // sectors of the volume
    szBlk: nat,   // erase block [sector]
    nFat: nat,
    nRoot: nat)   // entries of a static root directory

  /** The requests f_mkfs is left with once it has replaced unusable options. */
  predicate Proper(q: Request) {
    && SectorSize(q.ss)
    && (q.bVol == 0 || q.bVol == 63)
    && 128 <= q.szVol && q.bVol + q.szVol < WRAP
    && 1 <= q.szBlk <= 0x8000
    && 1 <= q.nFat <= 2
    && 1 <= q.nRoot <= 32768 && q.nRoot % (q.ss / 32) == 0
  }

  datatype Layout = Layout(
    fsType: FatType,
    pau: nat,       // sectors per cluster
    rsv: nat,       // reserved sectors
    fatSize: nat,   // sectors per FAT
    dirSize: nat,   // sectors of the static root directory
    clusters: nat)

  /** Sectors of all FATs: there are one or two. */
  function FatArea(q: Request, l: Layout): nat { if q.nFat == 2 then 2 * l.fatSize else l.fatSize }

  /** Sectors before the data area. */
  function SystemSize(q: Request, l: Layout): nat { l.rsv + FatArea(q, l) + l.dirSize }

  /** Bytes f_mkfs plans for a FAT of n clusters. */
  function PlannedBytes(t: FatType, n: nat): nat {
    match t
    case FAT12 => (n * 3 + 1) / 2 + 3
    case FAT16 => n * 2 + 4
    case FAT32 => n * 4 + 8
  }

  function Over(x: nat, d: nat): nat
    requires d > 0
  {
    x / d
  }

  /** Sectors that so many bytes take, in 32-bit arithmetic. */
  function SectorsFor(bytes: nat, ss: nat): nat
    requires ss > 0
  {
    U32(bytes + ss - 1) / ss
  }

  /** Sectors of a static root directory. */
  function DirSectors(nRoot: nat, ss: nat): nat
    requires ss > 0
  {
    nRoot * 32 / ss
  }

  /** Sectors from s to the next multiple of the block size. */
  function Padding(s: nat, szBlk: nat): nat
    requires szBlk > 0
  {
    var x := s + szBlk - 1;
    DivMod(x, szBlk);
    x / szBlk * szBlk - s
  }

  /** The sizes before the data area is aligned, as if all sectors were data. */
  function Unaligned(q: Request, t: FatType, pau: nat): Layout
    requires q.ss > 0 && pau > 0
  {
    var n0 := Over(q.szVol, pau);
    Layout(t, pau, if t == FAT32 then 32 else 1, SectorsFor(PlannedBytes(t, n0), q.ss),
           if t == FAT32 then 0 else DirSectors(q.nRoot, q.ss), n0)
  }

  /** The sizes after n sectors were added before the data area. */
  function Aligned(q: Request, l: Layout, n: nat): Layout
    requires l.pau > 0
  {
    var a := if l.fsType == FAT32 then l.(rsv := l.rsv + n)
             else if q.nFat == 2 && n % 2 == 1 then l.(rsv := l.rsv + 1, fatSize := l.fatSize + (n - 1) / 2)
             else l.(fatSize := l.fatSize + if q.nFat == 2 then n / 2 else n);
    a.(clusters := Over(U32(q.szVol - SystemSize(q, a)), l.pau))
  }

  /** One pass of the sizing loop: a candidate, or None where f_mkfs gives up. */
  function Attempt(q: Request, fat32: bool, pau: nat): Option<Layout>
    requires q.ss > 0 && pau > 0 && q.szBlk > 0
  {
    var n0 := Over(q.szVol, pau);
    if fat32 && !(MAX_FAT16 < n0 <= MAX_FAT32) then None
    else
      var t := if fat32 then FAT32 else if n0 > MAX_FAT12 then FAT16 else FAT12;
      var l := Unaligned(q, t, pau);
      var bData := q.bVol + SystemSize(q, l);
      if q.szVol < bData + pau * 16 - q.bVol then None
      else Some(Aligned(q, l, Padding(bData, q.szBlk)))
  }

  /** The FAT type that mount derives from a number of clusters. */
  function TypeOf(n: nat): Option<FatType> {
    if n <= MAX_FAT12 then Some(FAT12)
    else if n <= MAX_FAT16 then Some(FAT16)
    else if n <= MAX_FAT32 then Some(FAT32)
    else None
  }

  /**
  A usable layout: the type is the one its clusters imply, the FAT holds them all, the data
  area starts at a block boundary, and every value fits its field of the boot sector.
  */
  ghost predicate Usable(q: Request, l: Layout) {
    && PowerOfTwo(l.pau) && 1 <= l.pau <= 128
    && TypeOf(l.clusters) == Some(l.fsType)
    && SystemSize(q, l) <= q.szVol
    && l.clusters == (q.szVol - SystemSize(q, l)) / l.pau
    && TableBytes(l.fsType, l.clusters + 2) <= l.fatSize * q.ss
    && q.szBlk > 0 && Multiple(q.bVol + SystemSize(q, l), q.szBlk)
    && (if l.fsType == FAT32 then 32 else 1) <= l.rsv < 0x1_0000
    && 1 <= l.fatSize && (l.fsType != FAT32 ==> l.fatSize < 0x1_0000)
    && l.dirSize * (q.ss / 32) == if l.fsType == FAT32 then 0 else q.nRoot
  }

  // ---- The arithmetic behind a candidate ---------------------------------------------

  lemma QuotientAtMost(x: nat, d: nat)
    requires d > 0
    ensures Over(x, d) * d <= x && Over(x, d) <= x
  {
    var p := x / d;
    DivMod(x, d);
    MulMono(1, d, p);
    assert p * 1 == p && d * p == p * d;
  }

  predicate Multiple(x: nat, d: nat)
    requires d > 0
  {
    x % d == 0
  }

  lemma PaddingSays(s: nat, szBlk: nat)
    requires szBlk > 0
    ensures Padding(s, szBlk) < szBlk && Multiple(s + Padding(s, szBlk), szBlk)
  {
    var x := s + szBlk - 1;
    DivMod(x, szBlk);
    WithinUnit(x / szBlk, szBlk, 0);
  }

  /** The padding goes before the data area, all of it. */
  lemma AlignedSize(q: Request, l: Layout, n: nat)
    requires 1 <= q.nFat <= 2 && l.pau > 0
    ensures SystemSize(q, Aligned(q, l, n)) == SystemSize(q, l) + n
    ensures l.fatSize <= Aligned(q, l, n).fatSize <= l.fatSize + n
    ensures l.rsv <= Aligned(q, l, n).rsv <= l.rsv + n
    ensures var a := Aligned(q, l, n); a == l.(rsv := a.rsv, fatSize := a.fatSize, clusters := a.clusters)
    ensures Aligned(q, l, n).clusters == Over(U32(q.szVol - SystemSize(q, Aligned(q, l, n))), l.pau)
  {
    hide U32, Over;
  }

  /** The planned bytes are those mount asks for. */
  lemma PlannedIsNeeded(t: FatType, n: nat)
    ensures PlannedBytes(t, n) == TableBytes(t, n + 2)
  {
    if t == FAT12 {
      ThreeHalves(n / 2, n % 2);
    }
  }

  lemma ThreeHalves(k: nat, r: nat)
    requires r < 2
    ensures ((2 * k + r) * 3 + 1) / 2 == 3 * k + 2 * r
    ensures (2 * k + r + 2) * 3 / 2 == 3 * k + 3 + r && (2 * k + r + 2) % 2 == r
  {
    if r == 0 {
      assert (2 * k) * 3 + 1 == 2 * (3 * k) + 1;
    } else {
      assert (2 * k + 1) * 3 + 1 == 2 * (3 * k + 2);
    }
  }

  lemma TableBytesMono(t: FatType, m: nat, n: nat)
    requires m <= n
    ensures TableBytes(t, m) <= TableBytes(t, n)
  {}

  /** Without wrap-around the planned sectors hold the bytes, and little more. */
  lemma SectorsForRoom(bytes: nat, ss: nat)
    requires SectorSize(ss) && 3 <= bytes <= WRAP - ss
    ensures bytes <= SectorsFor(bytes, ss) * ss && SectorsFor(bytes, ss) * 512 < bytes + 512
    ensures SectorsFor(bytes, ss) >= 1
  {
    var x := bytes + ss - 1;
    assert U32(x) == x;
    if ss == 512 {
    } else if ss == 1024 {
    } else if ss == 2048 {
    }
  }

  /** Whatever wraps, the planned FAT is small beside a 32-bit sector count. */
  lemma SectorsForBound(bytes: nat, ss: nat)
    requires SectorSize(ss)
    ensures SectorsFor(bytes, ss) < 0x80_0000
  {
    var x := U32(bytes + ss - 1);
    if ss == 512 {
    } else if ss == 1024 {
    } else if ss == 2048 {
    }
  }

  lemma DirSize(nRoot: nat, ss: nat)
    requires SectorSize(ss) && nRoot <= 32768 && nRoot % (ss / 32) == 0
    ensures DirSectors(nRoot, ss) * (ss / 32) == nRoot && DirSectors(nRoot, ss) <= 2048
  {
    var m := ss / 32;
    var k := nRoot / m;
    DivMod(nRoot, m);
    assert ss == m * 32;
    assert nRoot * 32 == k * ss;
    WithinUnit(k, ss, 0);
    MulMono(16, m, k);
    assert k * m == m * k;
  }

  /** A quotient of a 32-bit value just below the wrap is no cluster count of a FAT volume. */
  lemma WrappedTooMany(x: int, pau: nat)
    requires -0x8000 <= x < 0 && 1 <= pau <= 128
    ensures Over(U32(x), pau) > MAX_FAT16
  {
    assert U32(x) == x + WRAP;
    DivLess(x + WRAP, pau, MAX_FAT16 + 1);
    MulMono(pau, 128, MAX_FAT16 + 1);
    assert (MAX_FAT16 + 1) * pau == pau * (MAX_FAT16 + 1);
  }

  lemma NotWrapped(x: int)
    requires 0 <= x < WRAP
    ensures U32(x) == x
  {}

  /** What a candidate is, once more: its unaligned form and the padding it received. */
  lemma Candidate(q: Request, fat32: bool, pau: nat, l: Layout) returns (u: Layout, n: nat)
    requires Proper(q) && 1 <= pau <= 128 && Attempt(q, fat32, pau) == Some(l)
    ensures u == Unaligned(q, l.fsType, pau) && l.fsType == u.fsType && l.pau == pau
    ensures fat32 == (l.fsType == FAT32) && (l.fsType == FAT12 ==> u.clusters <= MAX_FAT12)
    ensures fat32 ==> MAX_FAT16 < u.clusters <= MAX_FAT32
    ensures SystemSize(q, u) + pau * 16 <= q.szVol
    ensures n < q.szBlk && Multiple(q.bVol + SystemSize(q, l), q.szBlk)
    ensures SystemSize(q, l) == SystemSize(q, u) + n && u.fatSize <= l.fatSize <= u.fatSize + n
    ensures l.clusters == Over(U32(q.szVol - SystemSize(q, l)), pau)
    ensures u.rsv <= l.rsv <= u.rsv + n && l.dirSize == u.dirSize
  {
    hide U32, Over, SectorsFor, DirSectors, PlannedBytes, SystemSize, Aligned, Padding, Multiple;
    var t := if fat32 then FAT32 else if Over(q.szVol, pau) > MAX_FAT12 then FAT16 else FAT12;
    u := Unaligned(q, t, pau);
    n := Padding(q.bVol + SystemSize(q, u), q.szBlk);
    AlignedSize(q, u, n);
    PaddingSays(q.bVol + SystemSize(q, u), q.szBlk);
  }

  /** An accepted candidate leaves no wrapped subtraction behind. */
  lemma NoWrap(q: Request, fat32: bool, pau: nat, l: Layout)
    requires Proper(q) && 1 <= pau <= 128
    requires Attempt(q, fat32, pau) == Some(l) && TypeOf(l.clusters) == Some(l.fsType)
    ensures SystemSize(q, l) <= q.szVol
    ensures l.clusters == Over(q.szVol - SystemSize(q, l), pau) <= Over(q.szVol, pau)
  {
    hide U32, Over, SectorsFor, DirSectors, Attempt;
    var u, n := Candidate(q, fat32, pau, l);
    QuotientAtMost(q.szVol, pau);
    if fat32 {
      SectorsForRoom(PlannedBytes(FAT32, u.clusters), q.ss);
    } else if q.szVol < SystemSize(q, l) {
      WrappedTooMany(q.szVol - SystemSize(q, l), pau);
    }
    NotWrapped(q.szVol - SystemSize(q, l));
    OverMono(q.szVol - SystemSize(q, l), q.szVol, pau);
  }

  lemma OverMono(x: nat, y: nat, d: nat)
    requires x <= y && d > 0
    ensures Over(x, d) <= Over(y, d)
  {
    QuotientMono(x, y, d);
  }

  /** x holds fewer than n units only if it is within n units and s of a multiple it reaches. */
  lemma Excess(x: nat, s: nat, d: nat, n: nat)
    requires s <= x && d >= 1 && Over(x - s, d) < n
    ensures Over(x, d) < n + s + 1
  {
    var a := x / d;
    DivMod(x, d);
    DivLess(x - s, d, n);
    if a >= n {
      assert a * d == n * d + (a - n) * d;
      MulMono(1, d, a - n);
    }
  }

  /** A FAT16 candidate that is accepted was sized from few clusters. */
  lemma FewFat16(q: Request, pau: nat, l: Layout)
    requires Proper(q) && 1 <= pau <= 128
    requires Attempt(q, false, pau) == Some(l) && TypeOf(l.clusters) == Some(FAT16) && l.fsType == FAT16
    ensures Over(q.szVol, pau) < 0x4_0000
  {
    hide U32, Over, SectorsFor, DirSectors, Attempt;
    var u, n := Candidate(q, false, pau, l);
    NoWrap(q, false, pau, l);
    DirSize(q.nRoot, q.ss);
    Excess(q.szVol, SystemSize(q, l), pau, MAX_FAT16 + 1);
    var need := PlannedBytes(FAT16, u.clusters);
    SectorsForBound(need, q.ss);
    SectorsForRoom(need, q.ss);
  }

  /** Every candidate that passes the final check is usable. */
  lemma CandidateUsable(q: Request, fat32: bool, pau: nat, l: Layout)
    requires Proper(q) && 1 <= pau <= 128 && PowerOfTwo(pau)
    requires Attempt(q, fat32, pau) == Some(l) && TypeOf(l.clusters) == Some(l.fsType)
    ensures Usable(q, l)
  {
    hide U32, PowerOfTwo, SectorsFor, DirSectors, Attempt, PlannedBytes, TableBytes;
    var u, n := Candidate(q, fat32, pau, l);
    NoWrap(q, fat32, pau, l);
    DirSize(q.nRoot, q.ss);
    PlannedBound(q, pau, l);
    SectorsForRoom(PlannedBytes(l.fsType, u.clusters), q.ss);
    PlannedIsNeeded(l.fsType, u.clusters);
    TableBytesMono(l.fsType, l.clusters + 2, u.clusters + 2);
    MulMono(u.fatSize, l.fatSize, q.ss);
  }

  lemma PlannedBound(q: Request, pau: nat, l: Layout)
    requires Proper(q) && 1 <= pau <= 128
    requires Attempt(q, l.fsType == FAT32, pau) == Some(l) && TypeOf(l.clusters) == Some(l.fsType)
    ensures var need := PlannedBytes(l.fsType, Over(q.szVol, pau));
            3 <= need <= WRAP - q.ss && (l.fsType != FAT32 ==> need < 0x10_0000)
  {
    hide U32, Over, SectorsFor, DirSectors, Attempt;
    var u, n := Candidate(q, l.fsType == FAT32, pau, l);
    if l.fsType == FAT16 {
      FewFat16(q, pau, l);
    }
  }

  // ---- The sizing loop -----------------------------------------------------------------

  function Pow(k: nat): (r: nat)
    ensures PowerOfTwo(r)
  {
    if k == 0 then 1 else 2 * Pow(k - 1)
  }

  /** A power of two divided by another is one too, or 0. */
  lemma {:induction false} PowerOver(x: nat, d: nat)
    requires d > 0 && PowerOfTwo(x) && PowerOfTwo(d)
    ensures Over(x, d) == 0 || PowerOfTwo(Over(x, d))
  {
    if d != 1 && x != 1 {
      PowerOver(x / 2, d / 2);
      Doubled(x / 2, d / 2);
    }
  }

  /** Cluster size in sectors from the option in bytes; 0 stands for automatic choice. */
  function AllocationUnit(auSize: nat, ss: nat): (u: nat)
    requires SectorSize(ss)
    ensures u == 0 || (PowerOfTwo(u) && u <= 128)
  {
    var a := if auSize <= 0x100_0000 && (auSize == 0 || PowerOfTwo(auSize)) then auSize else 0;
    var u := Over(a, ss);
    assert PowerOfTwo(ss) && PowerOfTwo(128) by { Powers(); }
    assert a == 0 ==> u == 0;
    assert u == 0 || PowerOfTwo(u) by { if a != 0 { PowerOver(a, ss); } }
    if u > 128 then 128 else u
  }

  lemma Powers()
    ensures PowerOfTwo(128) && PowerOfTwo(512) && PowerOfTwo(1024) && PowerOfTwo(2048) && PowerOfTwo(4096)
  {
    assert PowerOfTwo(2) && PowerOfTwo(4) && PowerOfTwo(8) && PowerOfTwo(16) && PowerOfTwo(32) && PowerOfTwo(64);
    assert PowerOfTwo(128) && PowerOfTwo(256) && PowerOfTwo(512);
  }

  const FAT_BOUNDS: seq<nat> := [1, 4, 16, 64, 256, 512]
  const FAT32_BOUNDS: seq<nat> := [1, 2, 4, 8, 16, 32]

  /** The automatic cluster size: it doubles with every bound that the volume size reaches. */
  function AutoSize(n: nat, bounds: seq<nat>): (pau: nat)
    ensures PowerOfTwo(pau) && pau >= 1
  {
    if bounds == [] || bounds[0] > n then 1 else 2 * AutoSize(n, bounds[1..])
  }

  /** The cluster size f_mkfs starts with when none is given. */
  function FirstSize(q: Request, big: bool): nat {
    AutoSize(q.szVol / (if big then 0x2_0000 else 0x1000), if big then FAT32_BOUNDS else FAT_BOUNDS)
  }

  lemma {:induction false} AutoSizeBound(n: nat, bounds: seq<nat>)
    ensures AutoSize(n, bounds) <= Pow(|bounds|)
    decreases |bounds|
  {
    if bounds != [] {
      AutoSizeBound(n, bounds[1..]);
    }
  }

  /** The table look-up of f_mkfs. */
  method AutoUnit(n: nat, bounds: seq<nat>) returns (pau: nat)
    requires |bounds| == 6
    ensures pau == AutoSize(n, bounds) && PowerOfTwo(pau) && 1 <= pau <= 64
  {
    hide PowerOfTwo;
    var i := 0;
    pau := 1;
    assert bounds[0..] == bounds;
    while i < 6 && bounds[i] <= n
      invariant 0 <= i <= 6 && pau >= 1
      invariant pau * AutoSize(n, bounds[i..]) == AutoSize(n, bounds)
    {
      assert bounds[i..][1..] == bounds[i + 1..];
      Twice(pau, AutoSize(n, bounds[i + 1..]));
      i := i + 1;
      pau := pau * 2;
    }
    assert AutoSize(n, bounds[i..]) == 1;
    AutoSizeBound(n, bounds);
    assert Pow(1) == 2 && Pow(2) == 4 && Pow(3) == 8 && Pow(4) == 16 && Pow(5) == 32 && Pow(6) == 64;
  }

  lemma Twice(a: nat, b: nat)
    ensures a * (2 * b) == (a * 2) * b
  {}

  /** A cluster size gives a volume of the wanted kind whose type is the one its clusters imply. */
  predicate Fits(q: Request, fat32: bool, pau: nat)
    requires q.ss > 0 && pau > 0 && q.szBlk > 0
  {
    var a := Attempt(q, fat32, pau);
    a.Some? && TypeOf(a.value.clusters) == Some(a.value.fsType)
  }

  /** The cluster size of the next candidate. */
  function SizeOr(q: Request, au: nat, big: bool): (pau: nat)
    ensures pau >= 1
  {
    if au == 0 then FirstSize(q, big) else au
  }

  /** What is tried after a candidate that does not fit: a cluster size, 0 for automatic, and whether FAT32. */
  function Retry(q: Request, au: nat, big: bool, fat32: bool): (r: Option<(nat, bool)>)
    requires q.ss > 0 && q.szBlk > 0
    ensures r.Some? ==> if r.value.1 == big then au == 0 < r.value.0 <= 128 else !big && fat32 && r.value.0 == au
  {
    var pau := SizeOr(q, au, big);
    match Attempt(q, big, pau)
    case None => None
    case Some(l) =>
      if big then (if au == 0 && 2 <= pau <= 256 then Some((pau / 2, true)) else None)
      else if l.fsType == FAT12 then None
      else if l.clusters > MAX_FAT16 && au == 0 && pau <= 32 then Some((pau * 2, false))
      else if l.clusters > MAX_FAT16 && fat32 then Some((au, true))
      else if au == 0 && pau <= 64 then Some((pau * 2, false))
      else None
  }

  /** The first candidate that fits. */
  function Chosen(q: Request, au: nat, big: bool, fat32: bool): Option<Layout>
    requires q.ss > 0 && q.szBlk > 0
    decreases !big, au == 0
  {
    if Fits(q, big, SizeOr(q, au, big)) then Attempt(q, big, SizeOr(q, au, big))
    else
      match Retry(q, au, big, fat32)
      case None => None
      case Some(next) => Chosen(q, next.0, next.1, fat32)
  }

  lemma HalfPower(x: nat)
    requires PowerOfTwo(x) && x >= 2
    ensures PowerOfTwo(x / 2) && PowerOfTwo(2 * x)
  {
    assert (2 * x) / 2 == x;
  }

  /** What is tried next has a cluster size as good as the one before. */
  lemma RetryPower(q: Request, au: nat, big: bool, fat32: bool)
    requires q.ss > 0 && q.szBlk > 0 && (au == 0 || PowerOfTwo(au)) && Retry(q, au, big, fat32).Some?
    ensures var n := Retry(q, au, big, fat32).value.0; n == 0 || PowerOfTwo(n)
  {
    hide Attempt;
    var pau := SizeOr(q, au, big);
    if pau >= 2 {
      HalfPower(pau);
    }
    assert PowerOfTwo(2);
  }

  /** What is chosen fits and is usable, and respects what is given. */
  lemma {:induction false} ChosenFits(q: Request, au: nat, big: bool, fat32: bool)
    requires Proper(q) && (au == 0 || PowerOfTwo(au)) && au <= 128 && (big ==> fat32)
    ensures Chosen(q, au, big, fat32).Some? ==>
              var l := Chosen(q, au, big, fat32).value;
              && Usable(q, l) && Attempt(q, l.fsType == FAT32, l.pau) == Some(l) && Fits(q, l.fsType == FAT32, l.pau)
              && (au != 0 ==> l.pau == au) && (big ==> l.fsType == FAT32) && (!fat32 ==> l.fsType != FAT32)
    ensures au != 0 && big == fat32 ==> (Chosen(q, au, big, fat32).Some? <==> Fits(q, big, au))
    ensures Fits(q, big, SizeOr(q, au, big)) ==> Chosen(q, au, big, fat32) == Attempt(q, big, SizeOr(q, au, big))
    decreases !big, au == 0
  {
    hide Attempt, Usable, Proper, TypeOf, Fits, FirstSize, Retry;
    ProperSays(q);
    StartSize(q, big);
    var pau := SizeOr(q, au, big);
    if Fits(q, big, pau) {
      FitSays(q, big, pau);
    } else if Retry(q, au, big, fat32).Some? {
      RetryPower(q, au, big, fat32);
      var next := Retry(q, au, big, fat32).value;
      ChosenFits(q, next.0, next.1, fat32);
    }
  }

  lemma ChosenNext(q: Request, au: nat, big: bool, fat32: bool)
    requires q.ss > 0 && q.szBlk > 0 && (au == 0 || PowerOfTwo(au))
    ensures var r := Retry(q, au, big, fat32);
            if Fits(q, big, SizeOr(q, au, big)) then Chosen(q, au, big, fat32) == Attempt(q, big, SizeOr(q, au, big))
            else if r.None? then Chosen(q, au, big, fat32) == None
            else Chosen(q, au, big, fat32) == Chosen(q, r.value.0, r.value.1, fat32) && (r.value.0 == 0 || PowerOfTwo(r.value.0))
  {
    hide Attempt, Fits, FirstSize, PowerOfTwo, Retry;
    if Retry(q, au, big, fat32).Some? {
      RetryPower(q, au, big, fat32);
    }
  }

  /** A candidate that fits is usable. */
  lemma FitSays(q: Request, fat32: bool, pau: nat)
    requires Proper(q) && q.ss > 0 && q.szBlk > 0 && 1 <= pau <= 128 && PowerOfTwo(pau) && Fits(q, fat32, pau)
    ensures Attempt(q, fat32, pau).Some?
    ensures var l := Attempt(q, fat32, pau).value; Usable(q, l) && l.pau == pau && (fat32 <==> l.fsType == FAT32)
  {
    hide Attempt, Usable, Proper;
    var l := Attempt(q, fat32, pau).value;
    AttemptType(q, fat32, pau, l);
    CandidateUsable(q, fat32, pau, l);
  }

  /** A volume of as many sectors as a FAT12 volume has clusters at most, with a usual root directory and no alignment. */
  predicate Small(q: Request) { Proper(q) && q.szBlk == 1 && q.szVol <= MAX_FAT12 && q.nRoot <= 512 }

  /** Such a volume is accepted with clusters of one sector. */
  lemma SmallFits(q: Request)
    requires Small(q)
    ensures FirstSize(q, false) == 1 && SizeOr(q, 0, false) == 1 && Fits(q, false, 1) && 128 <= q.szVol && q.szBlk == 1
  {
    hide PowerOfTwo, U32, DirSectors, Aligned;
    assert AutoSize(0, FAT_BOUNDS) == 1;
    var u := Unaligned(q, FAT12, 1);
    DirSize(q.nRoot, q.ss);
    SmallDir(q.nRoot, q.ss);
    SectorsForRoom(PlannedBytes(FAT12, q.szVol), q.ss);
    assert Over(q.szVol, 1) == q.szVol;
    assert Padding(q.bVol + SystemSize(q, u), 1) == 0;
    AlignedSize(q, u, 0);
    NotWrapped(q.szVol - SystemSize(q, u));
  }

  lemma SmallDir(nRoot: nat, ss: nat)
    requires SectorSize(ss) && nRoot <= 512
    ensures DirSectors(nRoot, ss) <= 32
  {
    if ss == 512 {
    } else if ss == 1024 {
    } else if ss == 2048 {
    }
  }

  /**
  The sizing loop of f_mkfs: candidates with other cluster sizes, or FAT32 in place of FAT16,
  are tried until the type matches the clusters. It ends, what it accepts is usable, a given
  cluster size and choice of types are respected, and given both it fails only if they do not fit.
  The first candidate is the one chosen if it fits; in general it is the one that Chosen says.
  */
  method ChooseLayout(q: Request, szAu0: nat, fat: bool, fat32: bool) returns (r: Option<Layout>)
    requires Proper(q) && (szAu0 == 0 || PowerOfTwo(szAu0)) && szAu0 <= 128 && (fat || fat32)
    ensures r == Chosen(q, szAu0, !fat, fat32)
    ensures r.Some? ==> Usable(q, r.value)
    ensures r.Some? ==> Attempt(q, r.value.fsType == FAT32, r.value.pau) == r
    ensures r.Some? && szAu0 != 0 ==> r.value.pau == szAu0
    ensures szAu0 != 0 && fat != fat32 ==> (r.Some? <==> Fits(q, fat32, szAu0))
    ensures var first := SizeOr(q, szAu0, !fat); Fits(q, !fat, first) ==> r == Attempt(q, !fat, first)
    ensures r.Some? && !fat ==> r.value.fsType == FAT32
    ensures r.Some? && !fat32 ==> r.value.fsType != FAT32
  {
    hide Attempt, Usable, Proper, TypeOf, Fits, FirstSize, PowerOfTwo, Chosen;
    var szAu := szAu0;
    var big := !fat;
    ProperSays(q);
    ChosenFits(q, szAu0, !fat, fat32);
    while true
      invariant (szAu == 0 || PowerOfTwo(szAu)) && szAu <= 128 && (big ==> fat32)
      invariant Chosen(q, szAu, big, fat32) == Chosen(q, szAu0, !fat, fat32)
      decreases if big then 0 else 1, if szAu == 0 then 1 else 0
    {
      var pau := szAu;
      StartSize(q, big);
      if pau == 0 {
        pau := AutoUnit(q.szVol / (if big then 0x2_0000 else 0x1000), if big then FAT32_BOUNDS else FAT_BOUNDS);
      }
      var a := Attempt(q, big, pau);
      if a.None? {
        NoCandidate(q, big, pau);
        ChosenNext(q, szAu, big, fat32);
        return None;
      }
      var l := a.value;
      Judged(q, big, pau, l);
      ChosenNext(q, szAu, big, fat32);
      if l.fsType == FAT32 && l.clusters <= MAX_FAT16 {
        if szAu == 0 && pau / 2 != 0 {
          szAu := pau / 2;
          continue;
        }
        return None;
      }
      if l.fsType == FAT16 {
        if l.clusters > MAX_FAT16 {
          if szAu == 0 && pau * 2 <= 64 {
            szAu := pau * 2;
            continue;
          }
          if fat32 {
            big := true;
            continue;
          }
          if szAu == 0 && pau * 2 <= 128 {
            szAu := pau * 2;
            continue;
          }
          return None;
        }
        if l.clusters <= MAX_FAT12 {
          if szAu == 0 && pau * 2 <= 128 {
            szAu := pau * 2;
            continue;
          }
          return None;
        }
      }
      if l.fsType == FAT12 && l.clusters > MAX_FAT12 {
        return None;
      }
      return Some(l);
    }
  }

  lemma ProperSays(q: Request)
    requires Proper(q)
    ensures q.ss > 0 && q.szBlk > 0
  {}

  lemma UsableSays(q: Request, l: Layout)
    requires Usable(q, l)
    ensures l.pau >= 1
  {}

  lemma StartSize(q: Request, big: bool)
    ensures FirstSize(q, big) ==
            AutoSize(q.szVol / (if big then 0x2_0000 else 0x1000), if big then FAT32_BOUNDS else FAT_BOUNDS)
    ensures 1 <= FirstSize(q, big) <= 64 && PowerOfTwo(FirstSize(q, big))
  {
    var n, bounds := q.szVol / (if big then 0x2_0000 else 0x1000), if big then FAT32_BOUNDS else FAT_BOUNDS;
    AutoSizeBound(n, bounds);
    assert Pow(1) == 2 && Pow(2) == 4 && Pow(3) == 8 && Pow(4) == 16 && Pow(5) == 32 && Pow(6) == 64;
  }

  lemma NoCandidate(q: Request, fat32: bool, pau: nat)
    requires q.ss > 0 && pau > 0 && q.szBlk > 0 && Attempt(q, fat32, pau).None?
    ensures !Fits(q, fat32, pau)
  {}

  /** The tests of the sizing loop, in terms of its cluster limits, say whether a candidate fits. */
  lemma Judged(q: Request, fat32: bool, pau: nat, l: Layout)
    requires Proper(q) && 1 <= pau <= 128
    requires q.ss > 0 && q.szBlk > 0 && Attempt(q, fat32, pau) == Some(l)
    ensures fat32 == (l.fsType == FAT32) && l.pau == pau
    ensures Fits(q, fat32, pau) <==> TypeOf(l.clusters) == Some(l.fsType)
    ensures Fits(q, fat32, pau) <==>
            match l.fsType
            case FAT32 => l.clusters > MAX_FAT16
            case FAT16 => MAX_FAT12 < l.clusters <= MAX_FAT16
            case FAT12 => l.clusters <= MAX_FAT12
  {
    hide Attempt, Proper;
    AttemptType(q, fat32, pau, l);
    AttemptClusters(q, fat32, pau, l);
  }

  lemma AttemptType(q: Request, fat32: bool, pau: nat, l: Layout)
    requires Proper(q) && 1 <= pau <= 128
    requires q.ss > 0 && q.szBlk > 0 && Attempt(q, fat32, pau) == Some(l)
    ensures fat32 == (l.fsType == FAT32) && l.pau == pau
  {
    var u, n := Candidate(q, fat32, pau, l);
  }

  /** FAT32: the final number of clusters does not exceed the one that was checked. */
  lemma AttemptClusters(q: Request, fat32: bool, pau: nat, l: Layout)
    requires Proper(q) && 1 <= pau <= 128
    requires q.ss > 0 && q.szBlk > 0 && Attempt(q, fat32, pau) == Some(l)
    ensures fat32 ==> l.clusters <= MAX_FAT32
  {
    hide U32, Over, SectorsFor, DirSectors, Attempt;
    var u, n := Candidate(q, fat32, pau, l);
    QuotientAtMost(q.szVol, pau);
    if fat32 {
      SectorsForRoom(PlannedBytes(FAT32, u.clusters), q.ss);
      NotWrapped(q.szVol - SystemSize(q, l));
      OverMono(q.szVol - SystemSize(q, l), q.szVol, pau);
    }
  }
}
