/** The directory cursor: setting it to an offset and moving it to the next entry. */
module DirCursor {
  import opened Optional
  import opened Sectors
  import opened FatTable
  import opened FatVolume
  import opened FatAllocator
  import opened FileLayout

  const MAX_DIR := 0x20_0000
  const ENTRY := 32

  /** Cluster (0 in a static table), sector, and offset of the entry in the sector. */
  datatype Cursor = Cursor(clust: nat, sect: nat, off: nat)

  /** The cluster k links behind c, 0 if the links leave the table before. */
  function Follow(f: seq<nat>, c: nat, k: nat): (d: nat)
    ensures d == 0 || 2 <= d < |f|
    decreases k
  {
    if !(2 <= c < |f|) then 0 else if k == 0 then c else Follow(f, f[c], k - 1)
  }

  lemma {:induction false} FollowOneMore(f: seq<nat>, c: nat, k: nat)
    ensures var d := Follow(f, c, k); Follow(f, c, k + 1) == if d == 0 || !(2 <= f[d] < |f|) then 0 else f[d]
    decreases k
  {
    if 2 <= c < |f| && k > 0 {
      FollowOneMore(f, f[c], k - 1);
    }
  }

  /** Once the links have left the table they do not come back. */
  lemma {:induction false} FollowEnds(f: seq<nat>, c: nat, j: nat, k: nat)
    requires j <= k && Follow(f, c, j) == 0
    ensures Follow(f, c, k) == 0
    decreases k
  {
    if 2 <= c < |f| && j > 0 {
      FollowEnds(f, f[c], j - 1, k - 1);
    }
  }

  /** The place of the next entry: behind the entry, in the next sector, or in the next cluster. */
  lemma NextEntry(ss: nat, cs: nat, p: nat)
    requires ss > 0 && cs > 0 && ss % ENTRY == 0 && p % ENTRY == 0
    ensures var a, q := PlaceOf(ss, cs, p), p + ENTRY;
            PlaceOf(ss, cs, q) ==
            if q % ss != 0 then Place(a.i, a.r, a.o + ENTRY)
            else if q / ss % cs != 0 then Place(a.i, a.r + 1, 0)
            else Place(a.i + 1, 0, 0)
    ensures (p + ENTRY) / ss == if (p + ENTRY) % ss != 0 then p / ss else p / ss + 1
    ensures (p + ENTRY) % ss != 0 ==> (p + ENTRY) % ss == p % ss + ENTRY
  {
    var s, o := p / ss, p % ss;
    DivMod(p, ss);
    OffsetAligned(ss, p);
    assert (s + 1) * ss == s * ss + ss;
    if o + ENTRY < ss {
      WithinUnit(s, ss, o + ENTRY);
    } else {
      WithinUnit(s + 1, ss, 0);
      var i, r := s / cs, s % cs;
      DivMod(s, cs);
      assert (i + 1) * cs == i * cs + cs;
      if r + 1 < cs {
        WithinUnit(i, cs, r + 1);
      } else {
        WithinUnit(i + 1, cs, 0);
      }
    }
  }

  /** Entries do not cross sectors. */
  lemma OffsetAligned(ss: nat, p: nat)
    requires ss > 0 && ss % ENTRY == 0 && p % ENTRY == 0
    ensures p % ss + ENTRY <= ss
  {
    var m, e := ss / ENTRY, p / ENTRY;
    DivMod(e, m);
    var q, r := e / m, e % m;
    assert p == q * ss + r * ENTRY by {
      assert p == e * ENTRY && ss == m * ENTRY && q * ss == (q * m) * ENTRY;
    }
    WithinUnit(q, ss, r * ENTRY);
  }

  /** So many entries fill whole sectors. */
  predicate FillsSectors(n: nat, ss: nat)
    requires ss >= ENTRY
  {
    n % (ss / ENTRY) == 0
  }

  /** A static table ends at a sector boundary, so within a sector there is a next entry. */
  lemma NextStatic(ss: nat, n: nat, p: nat)
    requires ss >= ENTRY && ss % ENTRY == 0 && FillsSectors(n, ss) && p % ENTRY == 0
    requires p / ENTRY < n && (p + ENTRY) % ss != 0
    ensures (p + ENTRY) / ENTRY < n
  {
    var m, e := ss / ENTRY, (p + ENTRY) / ENTRY;
    if e == n {
      DivMod(n, m);
      var q := n / m;
      assert p + ENTRY == q * ss by {
        assert p + ENTRY == e * ENTRY && ss == m * ENTRY && q * ss == (q * m) * ENTRY;
      }
      WithinUnit(q, ss, 0);
    }
  }

  /** ofs lies rest bytes behind k whole clusters. */
  ghost predicate Behind(ofs: nat, k: nat, csz: nat, rest: nat) { ofs == k * csz + rest }

  lemma BehindStart(ofs: nat, csz: nat)
    ensures Behind(ofs, 0, csz, ofs)
  {}

  lemma BehindNext(ofs: nat, k: nat, csz: nat, rest: nat)
    requires Behind(ofs, k, csz, rest) && rest >= csz
    ensures Behind(ofs, k + 1, csz, rest - csz)
  {
    assert (k + 1) * csz == k * csz + csz;
  }

  /** Where an offset lies that is rest bytes behind k clusters. */
  lemma BehindPlace(ofs: nat, k: nat, ss: nat, cs: nat, rest: nat)
    requires ss > 0 && cs > 0 && Behind(ofs, k, cs * ss, rest)
    ensures PlaceOf(ss, cs, ofs).i >= k
    ensures rest < cs * ss ==> PlaceOf(ss, cs, ofs) == Place(k, rest / ss, rest % ss)
  {
    var s, o := rest / ss, rest % ss;
    DivMod(rest, ss);
    assert k * (cs * ss) == (k * cs) * ss;
    assert (k * cs + s) * ss == (k * cs) * ss + s * ss;
    WithinUnit(k * cs + s, ss, o);
    DivLess(k * cs + s, cs, k);
    if rest < cs * ss {
      DivLess(rest, ss, cs);
      WithinUnit(k, cs, s);
    }
  }

  /** Where the entry at offset ofs is, in a table that starts at cluster start or, if that is 0, in a static one. */
  ghost function Where(f: seq<nat>, base: seq<nat>, ss: nat, cs: nat, start: nat, dirbase: nat, nRootdir: nat, ofs: nat): Option<Cursor>
    requires ss > 0 && cs > 0 && |base| == |f|
  {
    var a := PlaceOf(ss, cs, ofs);
    if ofs >= MAX_DIR then None
    else if start == 0 then
      if ofs / ENTRY >= nRootdir then None else Some(Cursor(0, dirbase + ofs / ss, a.o))
    else
      var c := Follow(f, start, a.i);
      if c == 0 then None else Some(Cursor(c, base[c] + a.r, a.o))
  }

  // ---- The same in byte offsets --------------------------------------------------------------

  /** Clusters each of which the FAT links to the next, the first one being c. */
  ghost predicate Links(f: seq<nat>, c: nat, l: seq<nat>) {
    && l != [] && l[0] == c && (forall i :: 0 <= i < |l| ==> 2 <= l[i] < |f|)
    && forall i {:trigger f[l[i]]} :: 0 <= i < |l| - 1 ==> f[l[i]] == l[i + 1]
  }

  /** The entry at offset ofs of a static table: as many bytes behind its first sector. */
  ghost predicate InTable(ss: nat, dirbase: nat, nRootdir: nat, ofs: nat, at: Cursor) {
    && ofs < 32 * nRootdir && at.clust == 0
    && dirbase <= at.sect && at.off < ss && (at.sect - dirbase) * ss + at.off == ofs
  }

  /** The entry at offset ofs of a chain: in the last of the clusters l, behind all bytes of the others. */
  ghost predicate InChain(f: seq<nat>, base: seq<nat>, ss: nat, cs: nat, start: nat, l: seq<nat>, ofs: nat, at: Cursor) {
    && Links(f, start, l) && at.clust == l[|l| - 1] < |base|
    && base[at.clust] <= at.sect < base[at.clust] + cs && at.off < ss
    && (|l| - 1) * (cs * ss) + (at.sect - base[at.clust]) * ss + at.off == ofs
  }

  lemma {:induction false} FollowLinks(f: seq<nat>, c: nat, k: nat) returns (l: seq<nat>)
    requires Follow(f, c, k) != 0
    ensures Links(f, c, l) && |l| == k + 1 && l[k] == Follow(f, c, k)
    decreases k
  {
    l := [c];
    if k > 0 {
      var m := FollowLinks(f, f[c], k - 1);
      l := [c] + m;
    }
  }

  lemma {:induction false} LinksFollow(f: seq<nat>, c: nat, l: seq<nat>)
    requires Links(f, c, l)
    ensures Follow(f, c, |l| - 1) == l[|l| - 1]
    decreases |l|
  {
    if |l| > 1 {
      assert f[l[0]] == l[1];
      var m := l[1..];
      forall i | 0 <= i < |m| - 1
        ensures f[m[i]] == m[i + 1]
      {
        assert f[l[i + 1]] == l[i + 2];
      }
      LinksFollow(f, l[1], m);
    }
  }

  /** A cursor is in the place of an offset of a static table exactly when it is so many bytes behind the first sector. */
  lemma WhereInTable(f: seq<nat>, base: seq<nat>, ss: nat, cs: nat, dirbase: nat, nRootdir: nat, ofs: nat, at: Cursor)
    requires ss > 0 && cs > 0 && |base| == |f|
    ensures Where(f, base, ss, cs, 0, dirbase, nRootdir, ofs) == Some(at) <==>
              ofs < 0x20_0000 && InTable(ss, dirbase, nRootdir, ofs, at)
  {
    hide PlaceOf;
    PlaceOffset(ss, cs, ofs);
    var q := ofs / ss;
    if at.sect >= dirbase {
      QuotientIs(ofs, ss, at.sect - dirbase, at.off);
    }
  }

  lemma QuotientIs(x: nat, d: nat, q: nat, r: nat)
    requires d > 0
    ensures r < d && q * d + r == x <==> q == x / d && r == x % d
  {
    DivMod(x, d);
    if r < d && q * d + r == x {
      WithinUnit(q, d, r);
    }
  }

  /** What a place in a chain is: clusters before it, sectors before it, and the offset. */
  lemma PlaceIs(ss: nat, cs: nat, p: nat, a: Place)
    requires ss > 0 && cs > 0
    ensures PlaceOf(ss, cs, p) == a <==> a.r < cs && a.o < ss && a.i * (cs * ss) + a.r * ss + a.o == p
  {
    hide PlaceOf;
    var b := PlaceOf(ss, cs, p);
    PlaceValue(ss, cs, p);
    Distributed(b.i, cs, b.r, ss);
    Distributed(a.i, cs, a.r, ss);
    if a.r < cs && a.o < ss {
      PlaceUnique(ss, cs, a.i, a.r, a.o);
    }
  }

  lemma Distributed(i: nat, cs: nat, r: nat, ss: nat)
    ensures (i * cs + r) * ss == i * (cs * ss) + r * ss
  {
    assert (i * cs) * ss == i * (cs * ss);
  }

  /** A cursor is in the place of an offset of a chain exactly when it is behind so many linked clusters and bytes. */
  lemma WhereInChain(f: seq<nat>, base: seq<nat>, ss: nat, cs: nat, start: nat, dirbase: nat, nRootdir: nat, ofs: nat, at: Cursor)
    requires ss > 0 && cs > 0 && |base| == |f| && start != 0
    ensures Where(f, base, ss, cs, start, dirbase, nRootdir, ofs) == Some(at) <==>
              ofs < 0x20_0000 && exists l :: InChain(f, base, ss, cs, start, l, ofs, at)
  {
    hide PlaceOf, Follow, Links;
    var a := PlaceOf(ss, cs, ofs);
    PlaceIs(ss, cs, ofs, a);
    if Where(f, base, ss, cs, start, dirbase, nRootdir, ofs) == Some(at) {
      var l := FollowLinks(f, start, a.i);
      assert InChain(f, base, ss, cs, start, l, ofs, at);
    }
    if l :| InChain(f, base, ss, cs, start, l, ofs, at) {
      LastLink(f, start, l);
      LinksFollow(f, start, l);
      PlaceIs(ss, cs, ofs, Place(|l| - 1, at.sect - base[at.clust], at.off));
    }
  }

  lemma LastLink(f: seq<nat>, c: nat, l: seq<nat>)
    requires Links(f, c, l)
    ensures l != [] && 2 <= l[|l| - 1] < |f|
  {}

  class Dir {
    const fs: Volume
    const sclust: nat    // first cluster of the directory, 0: root
    const dirbase: nat   // of the volume: first cluster or sector of the root directory
    const nRootdir: nat  // of the volume: entries of a static root directory
    var dptr: nat
    var clust: nat
    var sect: nat
    var off: nat         // offset of the entry in the window

    constructor (fs: Volume, sclust: nat, dirbase: nat, nRootdir: nat)
      ensures this.fs == fs && this.sclust == sclust && this.dirbase == dirbase && this.nRootdir == nRootdir
    {
      this.fs, this.sclust, this.dirbase, this.nRootdir := fs, sclust, dirbase, nRootdir;
    }

    /** What mount_volume has checked: entries fill whole sectors, and so does a static root directory. */
    ghost predicate Shape() {
      fs.ss >= ENTRY && fs.csize > 0 && fs.ss % ENTRY == 0 && FillsSectors(nRootdir, fs.ss) && 0 < dirbase
    }

    ghost predicate Ready()
      reads fs, fs.win
    {
      fs.Valid() && Shape() && |fs.base| == |fs.fat| == fs.nFatent
    }

    /** The first cluster of the table, 0 for a static one. */
    function Start(): nat { if sclust == 0 && fs.fsType == FAT32 then dirbase else sclust }

    /** Where the entry at offset ofs is, if the directory reaches that far. */
    ghost function EntryAt(ofs: nat): Option<Cursor>
      requires Shape() && |fs.base| == |fs.fat|
      reads fs`fat
    {
      Where(fs.fat, fs.base, fs.ss, fs.csize, Start(), dirbase, nRootdir, ofs)
    }

    /** The cursor is on the entry at offset ofs. */
    ghost predicate At(ofs: nat)
      requires Shape() && |fs.base| == |fs.fat|
      reads this, fs`fat
    {
      dptr == ofs && EntryAt(ofs) == Some(Cursor(clust, sect, off))
    }

    /** The root directory of a FAT12 or FAT16 volume. */
    predicate Static() { sclust == 0 && fs.fsType != FAT32 }

    /** Where the chain of any other directory starts. */
    function First(): nat { if sclust == 0 then dirbase else sclust }

    /** The cursor is on the entry at offset ofs, in byte offsets. */
    ghost predicate Stands(ofs: nat)
      reads this, fs`fat
    {
      && dptr == ofs
      && var at := Cursor(clust, sect, off);
         if Static() then InTable(fs.ss, dirbase, nRootdir, ofs, at)
         else exists l :: InChain(fs.fat, fs.base, fs.ss, fs.csize, First(), l, ofs, at)
    }

    /** The directory reaches the offset: some cursor is on it. */
    ghost predicate Reaches(ofs: nat)
      reads fs`fat
    {
      && ofs < 0x20_0000
      && if Static() then exists at :: InTable(fs.ss, dirbase, nRootdir, ofs, at)
         else exists l, at :: InChain(fs.fat, fs.base, fs.ss, fs.csize, First(), l, ofs, at)
    }

    lemma AtIsStands(ofs: nat)
      requires Shape() && |fs.base| == |fs.fat|
      ensures At(ofs) <==> ofs < 0x20_0000 && Stands(ofs)
      ensures EntryAt(ofs).Some? <==> Reaches(ofs)
    {
      hide Where, InTable, InChain;
      assert Start() == if Static() then 0 else First();
      assert First() != 0;
      forall at
        ensures EntryAt(ofs) == Some(at) <==>
                  ofs < 0x20_0000 &&
                  if Static() then InTable(fs.ss, dirbase, nRootdir, ofs, at)
                  else exists l :: InChain(fs.fat, fs.base, fs.ss, fs.csize, First(), l, ofs, at)
      {
        if Static() {
          WhereInTable(fs.fat, fs.base, fs.ss, fs.csize, dirbase, nRootdir, ofs, at);
        } else {
          WhereInChain(fs.fat, fs.base, fs.ss, fs.csize, First(), dirbase, nRootdir, ofs, at);
        }
      }
      if EntryAt(ofs).Some? {
        var at := EntryAt(ofs).value;
        assert EntryAt(ofs) == Some(at);
      }
      if Reaches(ofs) {
        if Static() {
          var at :| InTable(fs.ss, dirbase, nRootdir, ofs, at);
          assert EntryAt(ofs) == Some(at);
        } else {
          var l, at :| InChain(fs.fat, fs.base, fs.ss, fs.csize, First(), l, ofs, at);
          assert EntryAt(ofs) == Some(at);
        }
      }
    }

    /** The loop of dir_sdi: follow the chain by whole clusters. */
    method FollowChain(ofs: nat) returns (clst: nat, rest: nat)
      requires Ready() && Start() != 0
      modifies fs`disk, fs`wflag, fs`winsect, fs.win
      ensures Ready() && fs.Outside() == old(fs.Outside())
      ensures var a := PlaceOf(fs.ss, fs.csize, ofs);
              var c := Follow(fs.fat, Start(), a.i);
              if c == 0 then !(2 <= clst < fs.nFatent) else clst == c && rest / fs.ss == a.r && rest % fs.ss == a.o
    {
      hide PlaceOf, Behind;
      clst, rest := Start(), ofs;
      var csz := fs.csize * fs.ss;
      ghost var k := 0;
      ghost var f, a := fs.fat, PlaceOf(fs.ss, fs.csize, ofs);
      BehindStart(ofs, csz);
      while rest >= csz
        invariant fs.Valid() && fs.Outside() == old(fs.Outside()) && f == fs.fat
        invariant csz == fs.csize * fs.ss && Behind(ofs, k, csz, rest)
        invariant Follow(f, Start(), k) == if 2 <= clst < fs.nFatent then clst else 0
        decreases rest
      {
        FollowOneMore(f, Start(), k);
        BehindNext(ofs, k, csz, rest);
        clst := fs.GetFat(clst);
        rest := rest - csz;
        k := k + 1;
        if !(2 <= clst < fs.nFatent) {
          break;
        }
      }
      BehindPlace(ofs, k, fs.ss, fs.csize, rest);
      if !(2 <= clst < fs.nFatent) {
        FollowEnds(f, Start(), k, a.i);
      }
    }

    /** dir_sdi: succeeds exactly for the aligned offsets that the directory reaches. */
    method SetIndex(ofs: nat) returns (res: FResult)
      requires Ready()
      modifies this`dptr, this`clust, this`sect, this`off, fs`disk, fs`wflag, fs`winsect, fs.win
      ensures Ready() && fs.Outside() == old(fs.Outside())
      ensures res == if ofs % ENTRY == 0 && EntryAt(ofs).Some? then FR_OK else FR_INT_ERR
      ensures res == FR_OK ==> At(ofs)
      ensures res == FR_OK <==> ofs % 32 == 0 && Reaches(ofs)
      ensures res == FR_OK ==> Stands(ofs)
    {
      hide PlaceOf, Follow, Volume.Valid, Volume.Outside, Volume.Geometry, Reaches, Stands;
      AtIsStands(ofs);
      if ofs >= MAX_DIR || ofs % ENTRY != 0 {
        return FR_INT_ERR;
      }
      dptr := ofs;
      var clst, rest := Start(), ofs;
      FirstSector(fs);
      if clst == 0 {
        if ofs / ENTRY >= nRootdir {
          return FR_INT_ERR;
        }
        sect := dirbase;
        PlaceOffset(fs.ss, fs.csize, ofs);
      } else {
        clst, rest := FollowChain(ofs);
        sect := ClusterSector(fs, clst);
      }
      clust := clst;
      if sect == 0 {
        return FR_INT_ERR;
      }
      var q, o := Split(rest, fs.ss);
      sect := sect + q;
      off := o;
      AtIsStands(ofs);
      return FR_OK;
    }

    /**
    dir_next without stretching: it goes to the entry where dir_sdi would put the cursor for
    the next offset, and fails exactly when there is none or the end was reported before.
    */
    method Advance() returns (res: FResult)
      requires Ready() && dptr % ENTRY == 0 && (sect != 0 ==> At(dptr))
      modifies this`dptr, this`clust, this`sect, this`off, fs`disk, fs`wflag, fs`winsect, fs.win
      ensures Ready() && fs.Outside() == old(fs.Outside())
      ensures res == FR_OK <==> old(sect) != 0 && EntryAt(old(dptr) + ENTRY).Some?
      ensures res == FR_OK ==> At(old(dptr) + ENTRY)
      ensures res == FR_OK <==> old(sect) != 0 && Reaches(old(dptr) + 32)
      ensures res == FR_OK ==> Stands(old(dptr) + 32)
      ensures res == FR_NO_FILE ==> sect == 0
      ensures res == FR_OK || res == FR_NO_FILE || (res == FR_INT_ERR && clust < |fs.fat| && fs.fat[clust] < 2)
    {
      hide Where, Volume.Valid, Volume.Outside, Volume.Geometry, Reaches, Stands;
      var ofs := dptr + ENTRY;
      AtIsStands(ofs);
      FirstSector(fs);
      if sect != 0 {
        WhereNext(fs.fat, fs.base, fs.ss, fs.csize, Start(), dirbase, nRootdir, dptr, Cursor(clust, sect, off));
      }
      if ofs >= MAX_DIR {
        sect := 0;
      }
      if sect == 0 {
        return FR_NO_FILE;
      }
      var q, o := Split(ofs, fs.ss);
      if o == 0 {
        sect := sect + 1;
        if clust == 0 {
          if ofs / ENTRY >= nRootdir {
            sect := 0;
            return FR_NO_FILE;
          }
        } else if q % fs.csize == 0 {
          var clst := fs.GetFat(clust);
          if clst <= 1 {
            return FR_INT_ERR;
          }
          if clst >= fs.nFatent {
            sect := 0;
            return FR_NO_FILE;
          }
          clust := clst;
          sect := ClusterSector(fs, clst);
        }
      }
      dptr := ofs;
      off := o;
      AtIsStands(ofs);
      return FR_OK;
    }
  }

  method Split(x: nat, d: nat) returns (q: nat, r: nat)
    requires d > 0
    ensures q == x / d && r == x % d
  {
    q, r := x / d, x % d;
  }

  /** The entry after the one at offset p. */
  lemma WhereNext(f: seq<nat>, base: seq<nat>, ss: nat, cs: nat, start: nat, dirbase: nat, nRootdir: nat, p: nat, at: Cursor)
    requires ss >= ENTRY && cs > 0 && |base| == |f| && ss % ENTRY == 0 && FillsSectors(nRootdir, ss) && dirbase > 0
    requires p % ENTRY == 0 && Where(f, base, ss, cs, start, dirbase, nRootdir, p) == Some(at)
    requires forall c :: 2 <= c < |f| ==> base[c] > 0
    ensures at.sect > 0 && (at.clust == 0 || 2 <= at.clust < |f|)
    ensures var q := p + ENTRY;
            Where(f, base, ss, cs, start, dirbase, nRootdir, q) ==
            if q >= MAX_DIR then None
            else if q % ss != 0 then Some(Cursor(at.clust, at.sect, q % ss))
            else if at.clust == 0 then if q / ENTRY >= nRootdir then None else Some(Cursor(0, at.sect + 1, 0))
            else if q / ss % cs != 0 then Some(Cursor(at.clust, at.sect + 1, 0))
            else if 2 <= f[at.clust] < |f| then Some(Cursor(f[at.clust], base[f[at.clust]], 0))
            else None
  {
    hide Where;
    if start == 0 {
      NextInTable(f, base, ss, cs, dirbase, nRootdir, p, at);
    } else {
      NextInChain(f, base, ss, cs, start, dirbase, nRootdir, p, at);
    }
  }

  lemma NextInTable(f: seq<nat>, base: seq<nat>, ss: nat, cs: nat, dirbase: nat, nRootdir: nat, p: nat, at: Cursor)
    requires ss >= ENTRY && cs > 0 && |base| == |f| && ss % ENTRY == 0 && FillsSectors(nRootdir, ss) && dirbase > 0
    requires p % ENTRY == 0 && Where(f, base, ss, cs, 0, dirbase, nRootdir, p) == Some(at)
    ensures at.sect > 0 && at.clust == 0
    ensures var q := p + ENTRY;
            Where(f, base, ss, cs, 0, dirbase, nRootdir, q) ==
            if q >= MAX_DIR then None
            else if q % ss != 0 then Some(Cursor(0, at.sect, q % ss))
            else if q / ENTRY >= nRootdir then None
            else Some(Cursor(0, at.sect + 1, 0))
  {
    hide PlaceOf, FillsSectors;
    var q := p + ENTRY;
    NextSector(ss, cs, p);
    PlaceOffset(ss, cs, q);
    if q % ss != 0 {
      NextStatic(ss, nRootdir, p);
    }
  }

  lemma NextSector(ss: nat, cs: nat, p: nat)
    requires ss > 0 && cs > 0 && ss % ENTRY == 0 && p % ENTRY == 0
    ensures (p + ENTRY) / ss == if (p + ENTRY) % ss != 0 then p / ss else p / ss + 1
  {
    NextEntry(ss, cs, p);
  }

  lemma NextInChain(f: seq<nat>, base: seq<nat>, ss: nat, cs: nat, start: nat, dirbase: nat, nRootdir: nat, p: nat, at: Cursor)
    requires ss >= ENTRY && cs > 0 && |base| == |f| && ss % ENTRY == 0 && start != 0
    requires p % ENTRY == 0 && Where(f, base, ss, cs, start, dirbase, nRootdir, p) == Some(at)
    requires forall c :: 2 <= c < |f| ==> base[c] > 0
    ensures at.sect > 0 && 2 <= at.clust < |f|
    ensures var q := p + ENTRY;
            Where(f, base, ss, cs, start, dirbase, nRootdir, q) ==
            if q >= MAX_DIR then None
            else if q % ss != 0 then Some(Cursor(at.clust, at.sect, q % ss))
            else if q / ss % cs != 0 then Some(Cursor(at.clust, at.sect + 1, 0))
            else if 2 <= f[at.clust] < |f| then Some(Cursor(f[at.clust], base[f[at.clust]], 0))
            else None
  {
    hide PlaceOf, Follow;
    NextEntry(ss, cs, p);
    PlaceOffset(ss, cs, p + ENTRY);
    FollowOneMore(f, start, PlaceOf(ss, cs, p).i);
  }

  /** The data area does not start at sector 0, and every cluster has a table entry. */
  lemma FirstSector(fs: Volume)
    requires fs.Valid()
    ensures fs.Geometry() && |fs.base| == |fs.fat| == fs.nFatent
    ensures forall c :: 2 <= c < fs.nFatent ==> fs.base[c] > 0
  {}

  lemma PlaceOffset(ss: nat, cs: nat, p: nat)
    requires ss > 0 && cs > 0
    ensures PlaceOf(ss, cs, p).o == p % ss
  {}
}
