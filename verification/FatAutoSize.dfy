/**
Which volumes f_mkfs accepts when it may choose the cluster size itself, and which size they get.
*/
module FatAutoSize {
  import opened Optional
  import opened Sectors
  import opened FatTable
  import opened FatLayout

  /** The sizes of a FAT volume by its sectors: from 4096 of them on it doubles whenever they become four times as many. */
  function FatSize(n: nat): nat {
    if n < 0x1000 then 1
    else if n < 0x4000 then 2
    else if n < 0x1_0000 then 4
    else if n < 0x4_0000 then 8
    else if n < 0x10_0000 then 16
    else if n < 0x20_0000 then 32
    else 64
  }

  /** The sizes of a FAT32 volume: from 0x20000 sectors on it doubles whenever they do. */
  function Fat32Size(n: nat): nat {
    if n < 0x2_0000 then 1
    else if n < 0x4_0000 then 2
    else if n < 0x8_0000 then 4
    else if n < 0x10_0000 then 8
    else if n < 0x20_0000 then 16
    else if n < 0x40_0000 then 32
    else 64
  }

  lemma Steps(n: nat, b: seq<nat>)
    requires |b| == 6
    ensures AutoSize(n, b) ==
            if n < b[0] then 1 else if n < b[1] then 2 else if n < b[2] then 4
            else if n < b[3] then 8 else if n < b[4] then 16 else if n < b[5] then 32 else 64
  {
    assert b[1..][1..] == b[2..] && b[2..][1..] == b[3..] && b[3..][1..] == b[4..] && b[4..][1..] == b[5..] && b[5..][1..] == [];
    assert AutoSize(n, b[5..]) == if n < b[5] then 1 else 2;
    assert AutoSize(n, b[4..]) == if n < b[4] then 1 else 2 * AutoSize(n, b[5..]);
    assert AutoSize(n, b[3..]) == if n < b[3] then 1 else 2 * AutoSize(n, b[4..]);
    assert AutoSize(n, b[2..]) == if n < b[2] then 1 else 2 * AutoSize(n, b[3..]);
    assert AutoSize(n, b[1..]) == if n < b[1] then 1 else 2 * AutoSize(n, b[2..]);
  }

  /** The size f_mkfs tries first. */
  lemma FirstSizeIs(q: Request)
    ensures FirstSize(q, false) == FatSize(q.szVol)
    ensures FirstSize(q, true) == Fat32Size(q.szVol)
  {
    Steps(q.szVol / 0x1000, FAT_BOUNDS);
    Steps(q.szVol / 0x2_0000, FAT32_BOUNDS);
  }

  /** A usual root directory and no alignment. */
  predicate Plain(q: Request) { Proper(q) && q.szBlk == 1 && q.nRoot <= 512 }

  predicate Size(p: nat) { p == 1 || p == 2 || p == 4 || p == 8 || p == 16 || p == 32 || p == 64 || p == 128 }

  lemma PlainArea(q: Request, t: FatType, p: nat)
    requires Plain(q) && t != FAT32 && p >= 1 && PlannedBytes(t, Over(q.szVol, p)) <= 0x8000_0000
    ensures SystemSize(q, Unaligned(q, t, p)) <= 33 + 2 * SectorsFor(PlannedBytes(t, Over(q.szVol, p)), q.ss)
    ensures SectorsFor(PlannedBytes(t, Over(q.szVol, p)), q.ss) * 512 < PlannedBytes(t, Over(q.szVol, p)) + 512
    ensures Padding(q.bVol + SystemSize(q, Unaligned(q, t, p)), 1) == 0
  {
    hide PowerOfTwo, U32, DirSectors, Over, SectorsFor;
    SmallDir(q.nRoot, q.ss);
    SectorsForRoom(PlannedBytes(t, Over(q.szVol, p)), q.ss);
  }

  /** A candidate of a plain volume: its clusters are what the system area leaves. */
  lemma PlainCandidate(q: Request, t: FatType, p: nat)
    requires Plain(q) && p >= 1 && PlannedBytes(t, Over(q.szVol, p)) <= 0x8000_0000
    requires t == if Over(q.szVol, p) > MAX_FAT12 then FAT16 else FAT12
    requires SystemSize(q, Unaligned(q, t, p)) + p * 16 <= q.szVol
    ensures var sys := SystemSize(q, Unaligned(q, t, p));
            && Attempt(q, false, p).Some? && Attempt(q, false, p).value.fsType == t && Attempt(q, false, p).value.pau == p
            && sys <= q.szVol && Attempt(q, false, p).value.clusters == Over(q.szVol - sys, p)
  {
    hide PowerOfTwo, U32, Over, SystemSize, SectorsFor;
    var u := Unaligned(q, t, p);
    PlainArea(q, t, p);
    AlignedSize(q, u, 0);
    NotWrapped(q.szVol - SystemSize(q, u));
  }

  lemma Split(x: nat, p: nat)
    requires Size(p)
    ensures p * Over(x, p) <= x < p * Over(x, p) + p
  {
    DivMod(x, p);
  }

  /** Few clusters: FAT12 fits. */
  lemma FewFit(q: Request, p: nat)
    requires Plain(q) && Size(p) && Over(q.szVol, p) <= MAX_FAT12 && 57 + 16 * p <= q.szVol
    ensures Fits(q, false, p) && Attempt(q, false, p).Some? && Attempt(q, false, p).value.pau == p
  {
    hide PowerOfTwo, U32, SystemSize, SectorsFor, Over, Attempt, Unaligned;
    PlainArea(q, FAT12, p);
    PlainCandidate(q, FAT12, p);
    OverMono(q.szVol - SystemSize(q, Unaligned(q, FAT12, p)), q.szVol, p);
  }

  /** More clusters: a FAT16 candidate, whose system area takes the space of few of them. */
  lemma MoreClusters(q: Request, p: nat) returns (sys: nat)
    requires Plain(q) && Size(p) && MAX_FAT12 < Over(q.szVol, p) <= 0x4_0000
    ensures Attempt(q, false, p).Some? && Attempt(q, false, p).value.fsType == FAT16 && Attempt(q, false, p).value.pau == p
    ensures sys <= q.szVol && 256 * sys < 2 * Over(q.szVol, p) + 8964 && Attempt(q, false, p).value.clusters == Over(q.szVol - sys, p)
  {
    hide PowerOfTwo, U32, SystemSize, SectorsFor, Over, Attempt, Unaligned;
    PlainArea(q, FAT16, p);
    Split(q.szVol, p);
    sys := SystemSize(q, Unaligned(q, FAT16, p));
    PlainCandidate(q, FAT16, p);
  }

  /** Neither few nor too many clusters: FAT16 fits. */
  lemma ManyFit(q: Request, p: nat)
    requires Plain(q) && Size(p) && 5000 <= Over(q.szVol, p) <= MAX_FAT16
    ensures Fits(q, false, p) && Attempt(q, false, p).Some? && Attempt(q, false, p).value.pau == p
  {
    hide PowerOfTwo, Over, Attempt;
    var sys := MoreClusters(q, p);
    LeftOver(q.szVol, sys, p);
    OverMono(q.szVol - sys, q.szVol, p);
  }

  /** Sectors that are taken cost at most as many clusters and one. */
  lemma LeftOver(x: nat, s: nat, p: nat)
    requires Size(p) && s <= x
    ensures Over(x, p) <= Over(x - s, p) + s + 1
  {
    Split(x, p);
    Split(x - s, p);
  }

  lemma Halved(x: nat, p: nat)
    requires Size(p) && p <= 64
    ensures Size(2 * p) && 2 * Over(x, 2 * p) <= Over(x, p) <= 2 * Over(x, 2 * p) + 1
  {
    Split(x, p);
    Split(x, 2 * p);
  }

  /** Where a FAT16 candidate has too few or too many clusters, twice the cluster size fits. */
  lemma TwiceFits(q: Request, p: nat)
    requires Plain(q) && Size(p) && p <= 64 && MAX_FAT12 < Over(q.szVol, p) && Over(q.szVol, 2 * p) <= MAX_FAT16
    requires !Fits(q, false, p)
    ensures Fits(q, false, 2 * p) && Attempt(q, false, 2 * p).Some? && Attempt(q, false, 2 * p).value.pau == 2 * p
    ensures Attempt(q, false, p).Some? && Attempt(q, false, p).value.fsType == FAT16
    ensures Attempt(q, false, p).value.clusters > MAX_FAT16 ==> Over(q.szVol, p) > MAX_FAT16
  {
    hide PowerOfTwo, Over, Attempt;
    Halved(q.szVol, p);
    Split(q.szVol, p);
    var sys := MoreClusters(q, p);
    LeftOver(q.szVol, sys, p);
    OverMono(q.szVol - sys, q.szVol, p);
    if Over(q.szVol, 2 * p) <= MAX_FAT12 {
      FewFit(q, 2 * p);
    } else {
      ManyFit(q, 2 * p);
    }
  }

  lemma SizeBounds(n: nat)
    requires n < 65525 * 128
    ensures Size(FatSize(n)) && FatSize(n) <= 64 && Over(n, 2 * FatSize(n)) <= MAX_FAT16
    ensures FatSize(n) <= 32 ==> n < 0x1_0000 * FatSize(n)
    ensures n >= 128 ==> 57 + 16 * FatSize(n) <= n
  {
    Split(n, 2 * FatSize(n));
  }

  /**
  With FAT only, every plain volume of less than 65525 clusters of 128 sectors is accepted; its
  clusters have the size of the table, or twice that where the type would not match their number.
  */
  lemma PlainAccepted(q: Request)
    requires Plain(q) && q.szVol < 65525 * 128
    ensures var c, p := Chosen(q, 0, false, false), FatSize(q.szVol);
            c.Some? && c.value.pau == if Fits(q, false, p) then p else 2 * p
  {
    hide PowerOfTwo, Over, Attempt, FatSize, FirstSize, Fits;
    var p := FatSize(q.szVol);
    FirstSizeIs(q);
    SizeBounds(q.szVol);
    VolumeSize(q);
    if Over(q.szVol, p) <= MAX_FAT12 {
      FewFit(q, p);
    } else if !Fits(q, false, p) {
      TwiceFits(q, p);
    } else {
      FitsSize(q, p);
    }
    ChosenTwice(q, p);
  }

  lemma VolumeSize(q: Request)
    requires Proper(q)
    ensures q.szVol >= 128 && q.ss > 0 && q.szBlk > 0
  {}

  lemma FitsSize(q: Request, p: nat)
    requires Plain(q) && Size(p) && Fits(q, false, p)
    ensures Attempt(q, false, p).Some? && Attempt(q, false, p).value.pau == p
  {
    hide PowerOfTwo, Over, U32, SystemSize, SectorsFor;
  }

  /** What the sizing loop does with a candidate that fits, or with one that does not but twice its size. */
  lemma ChosenTwice(q: Request, p: nat)
    requires q.ss > 0 && q.szBlk > 0 && FirstSize(q, false) == p && 1 <= p <= 64
    requires Fits(q, false, p) || (Attempt(q, false, p).Some? && Attempt(q, false, p).value.fsType == FAT16 && Fits(q, false, 2 * p))
    ensures Chosen(q, 0, false, false) == Attempt(q, false, if Fits(q, false, p) then p else 2 * p)
  {
    hide Attempt, Fits, FirstSize;
    if !Fits(q, false, p) {
      assert Retry(q, 0, false, false) == Some((2 * p, false));
      assert Chosen(q, 2 * p, false, false) == Attempt(q, false, 2 * p);
    }
  }
}
