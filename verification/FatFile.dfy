/** The open file object: a private sector buffer and direct transfers over a cluster chain. */
module FatFile {
  import opened Sectors
  import opened FatTable
  import opened FatChain
  import opened FatVolume
  import opened FatAllocator
  import opened FatLinkMap
  import opened FileLayout

  /** A chain never repeats a cluster. */
  lemma ChainDistinct(f: seq<nat>, c: seq<nat>)
    requires IsChain(f, c)
    ensures NoRepeat(c)
  {
    forall i, j | 0 <= i < j < |c|
      ensures c[i] != c[j]
    {
      Acyclic(f, c, i, j);
    }
  }

  function Min(a: nat, b: nat): nat { if a < b then a else b }

  function Max(a: nat, b: nat): nat { if a < b then b else a }

  /** Image v with sector s replaced by x; sector 0 stands for none. */
  ghost function Overlay(v: seq<Sector>, s: nat, x: Sector): seq<Sector>
    requires s < |v|
  {
    if s == 0 then v else v[s := x]
  }

  /** Sectors s .. s+n-1 of an overlaid image that is also seen through a window. */
  lemma OverlaySlice(d: seq<Sector>, w: nat, x: Sector, p: nat, y: Sector, s: nat, n: nat)
    requires 0 < s && s + n <= |d| && w < |d| && p < |d| && !(s <= w < s + n)
    ensures Overlay(d[w := x], p, y)[s..s + n] == if s <= p < s + n then d[s..s + n][p - s := y] else d[s..s + n]
  {}

  /** Overwriting sectors of the image; the overlaid sector is refreshed when it is among them. */
  lemma OverlaySplice(v: seq<Sector>, p: nat, x: Sector, s: nat, t: seq<Sector>)
    requires 0 < s && s + |t| <= |v| && p < |v|
    ensures |Splice(v, s, t)| == |v| == |Overlay(v, p, x)|
    ensures Splice(Overlay(v, p, x), s, t) == Overlay(Splice(v, s, t), p, if s <= p < s + |t| then t[p - s] else x)
    ensures s <= p < s + |t| ==> Splice(v, s, t)[p] == t[p - s]
    ensures !(s <= p < s + |t|) ==> Splice(v, s, t)[p] == v[p]
  {}

  lemma SliceJoin<T>(s: seq<T>, a: nat, b: nat, c: nat)
    requires a <= b <= c <= |s|
    ensures s[a..b] + s[b..c] == s[a..c]
  {}

  lemma SliceOfPrefix<T>(s: seq<T>, n: nat, a: nat, b: nat)
    requires a <= b <= n <= |s|
    ensures s[..n][a..b] == s[a..b]
  {}

  lemma SpliceAll<T>(s: seq<T>, d: seq<T>)
    requires |d| == |s|
    ensures Splice(s, 0, d) == d
  {}

  /** Replacing one sector replaces its bytes. */
  lemma {:induction false} FlatOverlay(t: seq<Sector>, ss: nat, j: nat, x: Sector)
    requires WellSized(t, ss) && j < |t| && |x| == ss
    ensures j * ss + ss <= |Flat(t)|
    ensures Splice(Flat(t), j * ss, x) == Flat(t[j := x])
  {
    var u := t[j := x];
    FlatLength(t, ss);
    MulMono(j + 1, |t|, ss);
    assert (j + 1) * ss == j * ss + ss;
    if j == 0 {
      assert u[1..] == t[1..];
    } else {
      FlatOverlay(t[1..], ss, j - 1, x);
      assert u[1..] == t[1..][j - 1 := x];
      SpliceAfter(t[0], Flat(t[1..]), (j - 1) * ss, x);
      assert (j - 1) * ss + ss == j * ss;
    }
  }

  lemma SpliceAfter<T>(a: seq<T>, s: seq<T>, p: nat, d: seq<T>)
    requires p <= |s|
    ensures Splice(a + s, |a| + p, d) == a + Splice(s, p, d)
  {}

  /** Bytes of sectors read from the disk, with sector j of them replaced by the buffer x. */
  method PutCached(t: seq<Sector>, ss: nat, j: nat, x: Sector) returns (d: seq<Byte>)
    requires WellSized(t, ss) && j < |t| && |x| == ss
    ensures d == Flat(t[j := x])
  {
    FlatOverlay(t, ss, j, x);
    d := Splice(Flat(t), j * ss, x);
  }

  /** A file of n bytes stored in b has d written over it at p; b2 holds the result. */
  ghost predicate Written(b: seq<Byte>, b2: seq<Byte>, n: nat, p: nat, d: seq<Byte>) {
    p <= n <= |b| && |b2| == |b| && p + |d| <= |b| &&
    b2[..if n < p + |d| then p + |d| else n] == Splice(b[..n], p, d)
  }

  /** Starting a sector at the end of the file: the bytes behind d are not part of it. */
  lemma WrittenFresh(b: seq<Byte>, n: nat, x: seq<Byte>, d: seq<Byte>)
    requires n + |x| <= |b| && d <= x
    ensures Written(b, Splice(b, n, x), n, n, d)
  {}

  lemma SameOrLater(x: nat, y: nat, u: nat)
    requires u > 0 && y / u >= x / u
    ensures x / u * u <= y
  {
    DivMod(y, u);
    MulMono(x / u, y / u, u);
  }

  /** Sector and byte offset in cluster number k after ofs bytes of it, and the cursor there. */
  method SplitOffset(ghost base: seq<nat>, ss: nat, ghost cs: nat, ghost chain: seq<nat>, ghost k: nat, ofs: nat, ghost s: nat)
    returns (q: nat, o: nat)
    requires ss > 0 && cs > 0 && 0 < ofs <= cs * ss && k < |chain| && chain[k] < |base|
    ensures o != 0 ==> q < cs
    ensures CursorAt(base, ss, cs, chain, k * (cs * ss) + ofs, chain[k], if o != 0 then base[chain[k]] + q else s)
  {
    q, o := ofs / ss, ofs % ss;
    CursorInCluster(base, ss, cs, chain, k, ofs, if o != 0 then base[chain[k]] + q else s);
  }

  /** Where no cluster is free no chain grows from nothing. */
  lemma NoneToTake(f: seq<nat>, g: seq<nat>, d: seq<nat>)
    requires Grew(f, g, [], d)
    ensures NoFree(f) ==> d == []
  {
    GrewMembers(f, g, [], d);
    if d != [] {
      assert d[0] in d;
    }
  }

  /** The clusters a write finds without asking a link map: the chain's, or else a first one. */
  function HeldBy(chain: seq<nat>): nat { if chain == [] then 1 else |chain| }

  /** What a write finds, or has come to. */
  datatype Found = Found(fat: seq<nat>, chain: seq<nat>, img: seq<Sector>, content: seq<Byte>, pos: nat, free: nat)

  class File {
    const fs: Volume
    const buf: array<Byte>
    const canRead: bool
    const canWrite: bool
    var sclust: nat       // first cluster, 0: none
    var objsize: nat
    var fptr: nat
    var clust: nat        // cluster of the byte before fptr, when fptr > 0
    var sect: nat         // sector in buf, 0: none
    var dirty: bool       // buf has to be written back
    var modified: bool
    var err: FResult
    var cltbl: seq<nat>   // link map of fast seek, empty: off
    var entryClust: nat   // first cluster and size in the directory entry
    var entrySize: nat
    ghost var noted: seq<Byte>  // the bytes of the file when the entry was last written
    ghost var mapped: seq<nat>  // the clusters that the link map lists
    ghost var chain: seq<nat>
    ghost var img: seq<Sector>  // the disk as the file sees it: through the window and its own buffer
    ghost var bytes: seq<Byte>  // all bytes the chain has room for

    /** The buffer over the disk, dirty or equal to its sector. */
    ghost predicate Linked()
      reads this`sect, this`dirty, this`img, fs, fs.win, buf
    {
      && fs.Valid()
      && buf.Length == fs.ss && buf != fs.win
      && (sect != 0 ==> fs.database <= sect < fs.nSect && sect != fs.winsect)
      && (dirty ==> sect != 0)
      && sect < fs.nSect
      && img == Overlay(fs.View(), sect, buf[..])
      && (!dirty && sect != 0 ==> buf[..] == fs.View()[sect])
    }

    /** The window is not over a data sector of these clusters. */
    ghost predicate Clear(c: seq<nat>)
      reads fs`winsect
    {
      fs.winsect < fs.database || forall i :: 0 <= i < |c| ==> !InCluster(fs.base, fs.csize, c[i], fs.winsect)
    }

    /** The chain is the file's, and the window is not over a data sector of it or of a mapped cluster. */
    ghost predicate Chained()
      reads this`chain, this`mapped, this`sclust, fs`fat, fs`winsect
    {
      && (sclust == 0 <==> chain == [])
      && (chain != [] ==> IsChain(fs.fat, chain) && chain[0] == sclust)
      && Clear(chain) && Clear(mapped)
    }

    /** The clusters in use are different clusters of the volume, whether or not the FAT links them. */
    ghost predicate Laid()
      reads this`chain, fs`winsect
    {
      Clear(chain) && NoRepeat(chain) && forall i :: 0 <= i < |chain| ==> 2 <= chain[i] < fs.nFatent
    }

    /** The data area is as in the image v. */
    ghost predicate DataAs(v: seq<Sector>)
      reads this`img
    {
      SameElsewhere(v, img, fs.database, fs.base, fs.csize, [])
    }

    /** The data area is as in the image v, but for the clusters of the chain. */
    ghost predicate OthersAs(v: seq<Sector>)
      reads this`img, this`chain
    {
      SameElsewhere(v, img, fs.database, fs.base, fs.csize, chain)
    }

    /** The clusters of the chain hold the bytes. */
    ghost predicate Stored()
      reads this`img, this`chain, this`bytes
    {
      Stores(img, fs.ss, fs.base, fs.csize, chain, bytes)
    }

    /** The cursor names the cluster of the byte before it, and the buffer holds its sector. */
    ghost predicate Cursor()
      reads this`chain, this`fptr, this`clust, this`sect
    {
      CursorAt(fs.base, fs.ss, fs.csize, chain, fptr, clust, sect)
    }

    ghost predicate Shape()
      reads this, fs, fs.win, buf
    {
      Linked() && Chained() && Stored() && objsize <= |bytes| && objsize <= DWORD_MAX
    }

    ghost predicate Valid()
      reads this, fs, fs.win, buf
    {
      Shape() && (err == FR_OK ==> Cursor() && fptr <= objsize)
    }

    /** A buffer that waits to be written back is noted as a change of the file. */
    ghost predicate Flagged()
      reads this`dirty, this`modified, this`err
    {
      dirty && err == FR_OK ==> modified
    }

    /** Short of an error, what is not noted as a change has not changed since the directory entry was written. */
    ghost predicate Recorded()
      reads this`err, this`modified, this`sclust, this`objsize, this`bytes, this`entryClust, this`entrySize, this`noted
    {
      err == FR_OK && !modified ==> entryClust == sclust && entrySize == objsize <= |bytes| && noted == bytes[..objsize]
    }

    /** The directory entry and what it stood for are as given. */
    ghost predicate EntryIs(clust: nat, size: nat, c: seq<Byte>)
      reads this`entryClust, this`entrySize, this`noted
    {
      entryClust == clust && entrySize == size && noted == c
    }

    /** The link map, if there is one, maps the chain. */
    ghost predicate Mapped()
      reads this`cltbl, this`chain, this`mapped
    {
      cltbl != [] ==> Maps(cltbl, 1, mapped) && mapped == chain
    }

    /**
    The link map, if there is one, mapped the chain once: since then the chain may have been
    cut, or have got its first cluster anew.
    */
    ghost predicate MapOk()
      reads this`cltbl, this`chain, this`mapped
    {
      cltbl != [] ==>
        && Maps(cltbl, 1, mapped) && (chain <= mapped || |chain| <= 1)
        && NoRepeat(mapped) && forall i :: 0 <= i < |mapped| ==> 2 <= mapped[i] < fs.nFatent
    }

    /** Writing n bytes goes on to a cluster that only an outdated map lists, once there is a first one. */
    ghost predicate Leaves(n: nat)
      reads this`cltbl, this`chain, this`mapped, this`fptr
    {
      var h := HeldBy(chain);
      cltbl != [] && h < |mapped| && h * fs.csize * fs.ss < Min(fptr + n, DWORD_MAX)
    }

    /** No entry of the FAT is 1, and the count of free clusters is right or unknown. */
    ghost predicate Sound()
      reads fs`fat, fs`freeClst
    {
      !Corrupt(fs.fat) && Counted(fs.fat, fs.freeClst)
    }

    /** The abstract file: a byte sequence of length objsize. */
    ghost function Content(): (c: seq<Byte>)
      requires objsize <= |bytes|
      reads this`bytes, this`objsize
    {
      bytes[..objsize]
    }

    /** f_open of an existing file: the directory entry gives the first cluster and the size. */
    constructor Open(fs: Volume, sclust: nat, objsize: nat, canRead: bool, canWrite: bool, ghost chain: seq<nat>)
      requires fs.Valid()
      requires sclust == 0 <==> chain == []
      requires chain != [] ==> IsChain(fs.fat, chain) && chain[0] == sclust
      requires fs.winsect < fs.database || forall i :: 0 <= i < |chain| ==> !InCluster(fs.base, fs.csize, chain[i], fs.winsect)
      requires objsize <= DWORD_MAX && objsize <= |chain| * fs.csize * fs.ss
      ensures Valid() && Flagged() && Mapped() && fptr == 0 && err == FR_OK && cltbl == [] && sect == 0 && !dirty && !modified
      ensures this.fs == fs && this.objsize == objsize && this.chain == chain
      ensures this.canRead == canRead && this.canWrite == canWrite
      ensures bytes == BytesOf(fs.View(), fs.ss, fs.base, fs.csize, chain)
      ensures Recorded() && EntryIs(sclust, objsize, Content()) && this.sclust == sclust
      ensures fresh(buf)
    {
      img, bytes := fs.View(), BytesOf(fs.View(), fs.ss, fs.base, fs.csize, chain);
      this.fs, this.canRead, this.canWrite := fs, canRead, canWrite;
      this.sclust, this.objsize, this.chain := sclust, objsize, chain;
      buf := new Byte[fs.ss](_ => 0);
      fptr, clust, sect := 0, 0, 0;
      dirty, modified, err, cltbl, mapped := false, false, FR_OK, [], [];
      entryClust, entrySize := sclust, objsize;
      noted := BytesOf(fs.View(), fs.ss, fs.base, fs.csize, chain)[..objsize];
    }

    /** Write the buffer back if it is dirty. */
    method Flush()
      requires Linked()
      modifies this`dirty, fs`disk
      ensures Linked() && !dirty
    {
      if dirty {
        var x := buf[..];
        assert Splice(fs.View(), sect, [x]) == fs.View()[sect := x];
        fs.DiskWrite(sect, [x]);
        dirty := false;
      }
    }

    /** Read a sector into the buffer. */
    method Load(s: nat)
      requires Linked() && !dirty
      requires fs.database <= s < fs.nSect && s != fs.winsect
      modifies this`sect, buf
      ensures Linked() && sect == s
    {
      CopyIn(fs.disk[s], 0);
      assert buf[..] == fs.disk[s] == fs.View()[s];
      assert img == fs.View();
      sect := s;
    }

    /** memcpy into the buffer at offset o. */
    method CopyIn(d: seq<Byte>, o: nat)
      requires o + |d| <= buf.Length
      modifies buf
      ensures buf[..] == Splice(old(buf[..]), o, d)
    {
      var i := 0;
      while i < |d|
        invariant 0 <= i <= |d|
        invariant forall j :: 0 <= j < buf.Length ==> buf[j] == if o <= j < o + i then d[j - o] else old(buf[j])
      {
        buf[o + i] := d[i];
        i := i + 1;
      }
    }

    /** Make sure the buffer holds sector s. */
    method Fetch(s: nat)
      requires Linked()
      requires fs.database <= s < fs.nSect && s != fs.winsect
      modifies this`sect, this`dirty, buf, fs`disk
      ensures Linked() && sect == s && (dirty ==> old(dirty))
    {
      if sect != s {
        Flush();
        Load(s);
      }
    }

    /** Read sectors from the disk, then put a dirty buffer in its place among them. */
    method DirectRead(s: nat, cc: nat) returns (d: seq<Byte>)
      requires Linked() && 0 < s && s + cc <= fs.nSect && !(s <= fs.winsect < s + cc)
      ensures |img| == fs.nSect && d == Flat(img[s..s + cc])
    {
      var t := fs.disk[s..s + cc];
      OverlaySlice(fs.disk, fs.winsect, fs.win[..], sect, buf[..], s, cc);
      if dirty && s <= sect < s + cc {
        d := PutCached(t, fs.ss, sect - s, buf[..]);
      } else {
        if sect != 0 && s <= sect < s + cc {
          assert t[sect - s := buf[..]] == t;
        }
        d := Flat(t);
      }
    }

    /** Write sectors to the disk; the buffer is refilled when its sector is among them. */
    method DirectWrite(s: nat, t: seq<Sector>)
      requires Linked() && !dirty && WellSized(t, fs.ss)
      requires fs.database <= s && s + |t| <= fs.nSect && !(s <= fs.winsect < s + |t|)
      modifies this`img, fs`disk, buf
      ensures |old(img)| == fs.nSect
      ensures Linked() && img == Splice(old(img), s, t)
    {
      hide Splice, Overlay, Encodes, Volume.Outside;
      OverlaySplice(fs.View(), sect, buf[..], s, t);
      fs.DiskWrite(s, t);
      if s <= sect < s + |t| {
        SpliceAll(buf[..], t[sect - s]);
        CopyIn(t[sect - s], 0);
      }
      img := Splice(img, s, t);
    }

    /** Store bytes in the buffer over its sector. */
    method Patch(o: nat, d: seq<Byte>)
      requires Linked() && sect != 0 && o + |d| <= fs.ss
      modifies this`img, this`dirty, buf
      ensures sect < |old(img)| && |old(img)[sect]| == fs.ss
      ensures Linked() && dirty && img == old(img)[sect := Splice(old(img)[sect], o, d)]
    {
      CopyIn(d, o);
      dirty := true;
      img := img[sect := buf[..]];
    }

    /** Start a sector in the buffer without reading it: what lies behind the file is not kept. */
    method StartSector(s: nat, d: seq<Byte>)
      requires Linked() && !dirty && |d| <= fs.ss
      requires fs.database <= s < fs.nSect && s != fs.winsect
      modifies this`img, this`dirty, this`sect, buf
      ensures Linked() && dirty && sect == s && s < |old(img)|
      ensures |buf[..]| == fs.ss && d <= buf[..] && img == Splice(old(img), s, [buf[..]])
    {
      CopyIn(d, 0);
      assert img == fs.View();
      sect, dirty := s, true;
      img := img[s := buf[..]];
    }

    // ---- The FAT on behalf of the file ---------------------------------------------------

    /** After an operation on the FAT the image follows the view v, whose data area is as before. */
    ghost method Refresh(v: seq<Sector>)
      requires fs.Valid() && buf.Length == fs.ss && buf != fs.win
      requires |v| == fs.nSect && v[..fs.fatbase] + v[fs.FatEnd()..] == fs.Outside()
      requires sect != 0 ==> fs.database <= sect < fs.nSect && sect != fs.winsect
      requires sect < fs.nSect && (dirty ==> sect != 0)
      requires img == Overlay(v, sect, buf[..]) && (!dirty && sect != 0 ==> buf[..] == v[sect])
      requires Stored()
      modifies this`img
      ensures Linked() && Stored() && DataAs(old(img))
    {
      ghost var e, w := img, fs.View();
      fs.DataSame(v, w);
      img := Overlay(w, sect, buf[..]);
      StoresFrame(e, img, fs.ss, fs.base, fs.csize, fs.database, chain, bytes);
    }

    /** get_fat on behalf of the file. */
    method FatNext(c: nat) returns (r: nat)
      requires Linked() && Chained() && Stored() && 2 <= c < fs.nFatent
      modifies this`img, fs`disk, fs`wflag, fs`winsect, fs.win
      ensures Linked() && Chained() && Stored() && fs.winsect < fs.database && DataAs(old(img))
      ensures c < |fs.fat| && r == fs.fat[c]
    {
      ghost var v := fs.View();
      r := fs.GetFat(c);
      Refresh(v);
    }

    /** There is no free cluster, as far as create_chain looks. */
    ghost predicate Full()
      reads fs`freeClst, fs`fat
    {
      fs.freeClst == 0 || (NoFree(fs.fat) && !Corrupt(fs.fat))
    }

    /** create_chain on behalf of the file, seen as a change of the FAT. */
    method FatCreate(c: nat) returns (r: nat)
      requires Linked() && Stored()
      modifies this`img, fs, fs.win
      ensures Linked() && Stored() && DataAs(old(img)) && (fs.fat == old(fs.fat) ==> fs.freeClst == old(fs.freeClst))
      ensures |old(fs.fat)| == fs.nFatent
      ensures 2 <= c < fs.nFatent && 2 <= old(fs.fat)[c] < fs.nFatent ==> r == old(fs.fat)[c] && fs.fat == old(fs.fat)
      ensures AtEnd(old(fs.fat), c) ==>
                || (r < 2 && fs.fat == old(fs.fat) && (r == 0 ==> Full()) && (r == 1 ==> Corrupt(fs.fat)))
                || (Created(old(fs.fat), c, Eoc(fs.fsType), r, fs.fat) && fs.winsect < fs.database)
      ensures old(Counted(fs.fat, fs.freeClst)) ==> Counted(fs.fat, fs.freeClst)
      ensures fs.winsect < fs.database || fs.winsect == old(fs.winsect)
    {
      ghost var v := fs.View();
      r := CreateChain(fs, c);
      Refresh(v);
    }

    /** create_chain behind i clusters of the chain: the next one is followed or, at the end, added. */
    method Stretch(c: nat, ghost i: nat) returns (r: nat)
      requires Linked() && Chained() && Stored()
      requires i <= |chain| && (i == 0 ==> chain == []) && c == if i == 0 then 0 else chain[i - 1]
      modifies this`img, this`chain, this`bytes, this`sclust, fs, fs.win
      ensures Linked() && Chained() && Stored() && DataAs(old(img))
      ensures old(bytes) <= bytes
      ensures i < |old(chain)| || r < 2 ==> chain == old(chain)
      ensures i < |old(chain)| ==> r >= 2
      ensures i == |old(chain)| && r >= 2 ==> chain == old(chain) + [r]
      ensures r >= 2 ==> i < |chain| && r == chain[i]
      ensures chain == old(chain) ==> fs.freeClst == old(fs.freeClst)
      ensures r == 0 ==> Full()
      ensures r == 1 ==> Corrupt(fs.fat)
      ensures old(Counted(fs.fat, fs.freeClst)) ==> Counted(fs.fat, fs.freeClst)
      ensures Grew(old(fs.fat), fs.fat, old(chain), chain)
    {
      hide Linked, Stored, Counted, Corrupt, Full, Grew, DataAs;
      ghost var f := fs.fat;
      GrewNot(f, chain);
      assert 0 < i < |chain| ==> f[chain[i - 1]] == chain[i];
      r := FatCreate(c);
      if r >= 2 {
        if sclust == 0 {
          sclust := r;
        }
        if i == |chain| {
          GrowWith(f, r);
        }
      }
    }

    /** The chain has got the cluster r at its end. */
    ghost method GrowWith(f: seq<nat>, r: nat)
      requires Linked() && Stored() && fs.winsect < fs.database
      requires chain != [] ==> IsChain(f, chain)
      requires var c := if chain == [] then 0 else chain[|chain| - 1];
               |f| == fs.nFatent && Created(f, c, Eoc(fs.fsType), r, fs.fat)
      modifies this`chain, this`bytes
      ensures chain == old(chain) + [r] && IsChain(fs.fat, chain)
      ensures Stored() && old(bytes) <= bytes
      ensures Grew(f, fs.fat, old(chain), chain)
    {
      hide Grew;
      EndMark(fs);
      GrewByOne(f, chain, r, Eoc(fs.fsType));
      if chain == [] {
        assert IsChain(fs.fat, [r]);
      } else {
        AppendCluster(f, chain, r, Eoc(fs.fsType));
      }
      var longer := chain + [r];
      assert OnDisk(|img|, fs.base, fs.csize, longer);
      StoresLonger(img, fs.ss, fs.base, fs.csize, chain, bytes, longer);
      bytes := BytesOf(img, fs.ss, fs.base, fs.csize, longer);
      chain := longer;
    }

    // ---- Reading ---------------------------------------------------------------------------

    lemma Unchanged()
      ensures DataAs(img) && OthersAs(img)
    {
      SameAll(img, fs.database, fs.base, fs.csize, []);
      SameAll(img, fs.database, fs.base, fs.csize, chain);
    }

    lemma Units()
      requires Linked() && Stored()
      ensures fs.ss > 0 && fs.csize > 0 && fs.Geometry() && |fs.fat| == fs.nFatent && fs.database > 0
    {}

    lemma LaidOut()
      requires Linked() && Chained()
      ensures Laid()
    {
      if chain != [] {
        ChainDistinct(fs.fat, chain);
      }
    }

    /** Sectors of one of the file's clusters are data sectors and not under the window. */
    lemma DataRun(i: nat, r: nat, n: nat)
      requires Linked() && Laid() && Stored() && i < |chain| && r + n <= fs.csize
      ensures |img| == fs.nSect && chain[i] < |fs.base| == fs.nFatent && 2 <= chain[i]
      ensures var s := fs.base[chain[i]] + r;
              fs.database <= s && s + n <= fs.nSect && !(s <= fs.winsect < s + n)
    {}

    /** Enter cluster number i of the chain: from the start, by the link map or by the FAT. */
    method FollowForRead(i: nat)
      requires Linked() && Chained() && Stored() && MapOk()
      requires i < |chain| && if fptr == 0 then i == 0 else i > 0 && clust == chain[i - 1]
      modifies this`clust, this`img, fs`disk, fs`wflag, fs`winsect, fs.win
      ensures Linked() && Chained() && Stored() && DataAs(old(img))
      ensures clust == chain[i]
    {
      Unchanged();
      var clst;
      if fptr == 0 {
        clst := sclust;
      } else {
        if cltbl != [] {
          clst := ClusterFromMap(cltbl, i, mapped);
        } else {
          assert fs.fat[chain[i - 1]] == chain[i];
          clst := FatNext(clust);
        }
      }
      clust := clst;
    }

    /** Transfer whole sectors of the current cluster directly, at most btr bytes of them. */
    method ReadWhole(btr: nat, r: nat, ghost i: nat) returns (got: seq<Byte>)
      requires Linked() && Laid() && Stored()
      requires PlaceOf(fs.ss, fs.csize, fptr) == Place(i, r, 0) && i < |chain| && clust == chain[i]
      ensures |got| <= btr && fptr + |got| <= |bytes|
      ensures got == bytes[fptr..fptr + |got|]
      ensures got == [] <==> btr < fs.ss
      ensures got != [] ==> CursorAt(fs.base, fs.ss, fs.csize, chain, fptr + |got|, clust, sect)
    {
      hide Linked, Laid, Stores, PlaceOf, CursorAt, Volume.Geometry;
      Units();
      var cc := WholeSectors(btr, fs.ss, fs.csize - r);
      if cc == 0 {
        Allocated(img, fs.base, fs.csize, fs.ss, chain, bytes, fptr);
        return [];
      }
      DataRun(i, r, cc);
      var s := ClusterSector(fs, clust);
      got := DirectRead(s + r, cc);
      ReadRun(img, fs.base, fs.csize, fs.ss, chain, bytes, fptr, cc, s + r, got);
      CursorRun(fs.base, fs.ss, fs.csize, chain, fptr, cc, clust, sect);
    }

    /** Copy the bytes from fptr to the end of its sector, at most btr, out of the buffer. */
    method ReadBuffered(btr: nat, o: nat, ghost i: nat, ghost r: nat) returns (got: seq<Byte>)
      requires Linked() && Laid() && Stored() && 0 < btr
      requires PlaceOf(fs.ss, fs.csize, fptr) == Place(i, r, o) && i < |chain| && clust == chain[i] < |fs.base|
      requires sect == fs.base[clust] + r
      ensures 0 < |got| <= btr && fptr + |got| <= |bytes|
      ensures got == bytes[fptr..fptr + |got|]
      ensures CursorAt(fs.base, fs.ss, fs.csize, chain, fptr + |got|, clust, sect)
    {
      var rcnt := fs.ss - o;
      if rcnt > btr {
        rcnt := btr;
      }
      DataRun(i, r, 1);
      got := buf[o..o + rcnt];
      ghost var x := img[sect];
      assert x == buf[..];
      ReadPart(img, fs.base, fs.csize, fs.ss, chain, bytes, fptr, rcnt);
      assert got == x[o..o + rcnt];
      CursorPart(fs.base, fs.ss, fs.csize, chain, fptr, rcnt, clust, sect);
    }

    /** The bytes read from a sector boundary: whole sectors directly, else part of one by way of the buffer. */
    method ReadBoundary(btr: nat, r: nat, ghost i: nat) returns (got: seq<Byte>)
      requires Linked() && Laid() && Stored() && 0 < btr
      requires PlaceOf(fs.ss, fs.csize, fptr) == Place(i, r, 0) && i < |chain| && clust == chain[i]
      modifies this`sect, this`dirty, buf, fs`disk
      ensures Linked() && Stored() && (dirty ==> old(dirty))
      ensures 0 < |got| <= btr && fptr + |got| <= |bytes|
      ensures got == bytes[fptr..fptr + |got|]
      ensures CursorAt(fs.base, fs.ss, fs.csize, chain, fptr + |got|, clust, sect)
    {
      hide Linked, Laid, Stores, PlaceOf, CursorAt, Volume.Geometry;
      Units();
      got := ReadWhole(btr, r, i);
      if got == [] {
        DataRun(i, r, 1);
        var s := ClusterSector(fs, clust);
        Fetch(s + r);
        got := ReadBuffered(btr, 0, i, r);
      }
    }

    /** One pass of the loop of f_read. */
    method ReadPiece(btr: nat) returns (got: seq<Byte>)
      requires Valid() && err == FR_OK && MapOk() && 0 < btr && fptr + btr <= objsize
      modifies this`fptr, this`clust, this`sect, this`dirty, this`img, buf, fs`disk, fs`wflag, fs`winsect, fs.win
      ensures Valid() && 0 < |got| <= btr && fptr == old(fptr) + |got| && (dirty ==> old(dirty)) && DataAs(old(img))
      ensures got == bytes[old(fptr)..fptr]
    {
      hide Linked, Chained, Laid, MapOk, Stores, PlaceOf, CursorAt, DataAs, Volume.Geometry;
      Units();
      Unchanged();
      var a := PlaceOf(fs.ss, fs.csize, fptr);
      CursorPlace(fs.base, fs.ss, fs.csize, chain, fptr, clust, sect);
      Allocated(img, fs.base, fs.csize, fs.ss, chain, bytes, fptr);
      LaidOut();
      if a.o == 0 {
        if a.r == 0 {
          FollowForRead(a.i);
          LaidOut();
        }
        got := ReadBoundary(btr, a.r, a.i);
      } else {
        got := ReadBuffered(btr, a.o, a.i, a.r);
      }
      fptr := fptr + |got|;
    }

    /** f_read. */
    method Read(btr: nat) returns (res: FResult, got: seq<Byte>)
      requires Valid() && MapOk()
      modifies this`fptr, this`clust, this`sect, this`dirty, this`img, buf, fs`disk, fs`wflag, fs`winsect, fs.win
      ensures Valid() && MapOk() && (old(Flagged()) ==> Flagged()) && DataAs(old(img)) && (old(Recorded()) ==> Recorded())
      ensures res == if err != FR_OK then err else if canRead then FR_OK else FR_DENIED
      ensures res != FR_OK ==> got == [] && fptr == old(fptr)
      ensures res == FR_OK ==> fptr == Min(old(fptr) + btr, objsize) && got == Content()[old(fptr)..fptr]
    {
      hide Linked, Chained, MapOk, Stored, Cursor, DataAs, SameElsewhere;
      ghost var v := img;
      Unchanged();
      if err != FR_OK {
        return err, [];
      }
      if !canRead {
        return FR_DENIED, [];
      }
      var n := btr;
      if n > objsize - fptr {
        n := objsize - fptr;
      }
      got := [];
      ghost var p, end := fptr, fptr + n;
      while n > 0
        invariant Valid() && 0 <= n && fptr + n == end <= objsize <= |bytes| && p <= fptr
        invariant got == bytes[p..fptr] && (dirty ==> old(dirty)) && DataAs(v)
      {
        ghost var q, w := fptr, img;
        DataSays(v);
        var piece := ReadPiece(n);
        DataThen(v, w);
        SliceJoin(bytes, p, q, fptr);
        got := got + piece;
        n := n - |piece|;
      }
      SliceOfPrefix(bytes, objsize, p, fptr);
      res := FR_OK;
    }

    // ---- Writing ---------------------------------------------------------------------------

    /**
    What f_write works on: the file's chain or, once an outdated link map has led it to a
    cluster behind the end of the chain, the clusters that the map lists.
    */
    ghost predicate OnTrack(astray: bool)
      reads this`chain, this`mapped, this`cltbl, this`sclust, this`fptr, fs`fat, fs`winsect
    {
      if astray then Laid() && chain == mapped && cltbl != [] && fptr > 0 else Chained()
    }

    /** f_write may go on. */
    ghost predicate Going(astray: bool)
      reads this, fs, fs.win, buf
    {
      && Linked() && Stored() && OnTrack(astray) && MapOk()
      && objsize <= |bytes| && objsize <= DWORD_MAX && err == FR_OK && fptr <= objsize
    }

    lemma TrackLaid(astray: bool)
      requires Linked() && OnTrack(astray)
      ensures Laid()
    {
      if !astray {
        LaidOut();
      }
    }

    /** Enter cluster number i, adding it to the chain if need be: 0 if there is none, 1 on a corrupt FAT. */
    method FollowForWrite(i: nat, ghost astray: bool) returns (clst: nat)
      requires Linked() && OnTrack(astray) && Stored() && MapOk() && i <= |chain|
      requires cltbl != [] ==> i < |chain| || |mapped| <= i || i == 0
      requires if fptr == 0 then i == 0 else i > 0 && (cltbl != [] || clust == chain[i - 1])
      modifies this`clust, this`img, this`chain, this`bytes, this`sclust, fs, fs.win
      ensures Linked() && OnTrack(astray) && Stored() && MapOk()
      ensures old(bytes) <= bytes && DataAs(old(img))
      ensures if astray then fs.fat == old(fs.fat) && fs.winsect == old(fs.winsect) && sclust == old(sclust)
              else Grew(old(fs.fat), fs.fat, old(chain), chain)
      ensures chain == old(chain) || (|chain| == i + 1 && clst >= 2)
      ensures i < |old(chain)| || clst < 2 ==> chain == old(chain)
      ensures cltbl != [] && old(chain) != [] ==> chain == old(chain)
      ensures if clst < 2 then clust == old(clust) else i < |chain| && clust == chain[i]
      ensures chain == old(chain) ==> fs.freeClst == old(fs.freeClst)
      ensures clst < 2 ==> i == |chain|
      ensures clst == 0 ==> Full() || (cltbl != [] && chain != [])
      ensures clst == 1 ==> Corrupt(fs.fat) && !astray
      ensures old(Counted(fs.fat, fs.freeClst)) ==> Counted(fs.fat, fs.freeClst)
    {
      hide Linked, Stored, Maps, Full, Corrupt, Counted, Grew, DataAs;
      if !astray {
        GrewNot(fs.fat, chain);
      }
      Unchanged();
      if fptr == 0 {
        clst := sclust;
        if clst == 0 {
          clst := Stretch(0, 0);
        }
      } else {
        if cltbl != [] {
          clst := ClusterFromMap(cltbl, i, mapped);
        } else {
          clst := Stretch(clust, i);
        }
      }
      if clst < 2 {
        return;
      }
      clust := clst;
    }

    /** What writing cc whole sectors at fptr does to the file. */
    lemma RunWritten(d: seq<Byte>, i: nat, r: nat, cc: nat, s: nat)
      requires Linked() && Laid() && Stored() && fptr <= objsize <= |bytes|
      requires fs.ss > 0 && fs.csize > 0 && fs.Geometry()
      requires PlaceOf(fs.ss, fs.csize, fptr) == Place(i, r, 0) && i < |chain| && clust == chain[i] < |fs.base|
      requires 0 < cc && r + cc <= fs.csize && |d| == cc * fs.ss && s == fs.base[clust] + r
      ensures s + cc <= |img| && fptr + |d| <= |bytes| && 0 < |d|
      ensures Stores(Splice(img, s, Chunks(d, fs.ss, cc)), fs.ss, fs.base, fs.csize, chain, Splice(bytes, fptr, d))
      ensures Written(bytes, Splice(bytes, fptr, d), objsize, fptr, d)
      ensures CursorAt(fs.base, fs.ss, fs.csize, chain, fptr + |d|, clust, sect)
    {
      hide PlaceOf, Stores, CursorAt, Volume.Valid;
      DataRun(i, r, cc);
      WriteRun(img, fs.base, fs.csize, fs.ss, chain, bytes, fptr, cc, s, d);
      CursorRun(fs.base, fs.ss, fs.csize, chain, fptr, cc, clust, sect);
      SplicePrefix(bytes, objsize, fptr, d);
    }

    /** Write whole sectors of the current cluster directly, as many as d fills. */
    method WriteWhole(d: seq<Byte>, r: nat, ghost i: nat) returns (n: nat)
      requires Linked() && Laid() && Stored() && !dirty && fptr <= objsize <= |bytes|
      requires PlaceOf(fs.ss, fs.csize, fptr) == Place(i, r, 0) && i < |chain| && clust == chain[i]
      modifies this`img, this`bytes, fs`disk, buf
      ensures Linked() && Stored()
      ensures n <= |d| && (n == 0 <==> |d| < fs.ss)
      ensures n == 0 ==> bytes == old(bytes) && img == old(img)
      ensures n > 0 ==> Written(old(bytes), bytes, objsize, fptr, d[..n])
      ensures n > 0 ==> CursorAt(fs.base, fs.ss, fs.csize, chain, fptr + n, clust, sect)
      ensures chain[i] < |fs.base| && SameBut(old(img), img, fs.database, fs.base[chain[i]], fs.csize)
    {
      hide Linked, Laid, PlaceOf, Stores, CursorAt, Written, Chunks, SameBut, Volume.Geometry;
      Units();
      DataRun(i, 0, 0);
      SameSelf(img, fs.database, fs.base[chain[i]], fs.csize);
      var cc := WholeSectors(|d|, fs.ss, fs.csize - r);
      if cc == 0 {
        return 0;
      }
      DataRun(i, r, cc);
      var s := ClusterSector(fs, clust);
      s := s + r;
      n := cc * fs.ss;
      RunWritten(d[..n], i, r, cc, s);
      SameSplice(img, s, Chunks(d[..n], fs.ss, cc), fs.database, fs.base[clust], fs.csize);
      DirectWrite(s, Chunks(d[..n], fs.ss, cc));
      bytes := Splice(bytes, fptr, d[..n]);
    }

    /** What writing part of the sector s of fptr does to the file. */
    lemma PartWritten(d: seq<Byte>, i: nat, r: nat, o: nat, s: nat)
      requires Linked() && Laid() && Stored() && fptr <= objsize <= |bytes|
      requires fs.ss > 0 && fs.csize > 0 && fs.Geometry()
      requires PlaceOf(fs.ss, fs.csize, fptr) == Place(i, r, o) && i < |chain| && clust == chain[i] < |fs.base|
      requires s == fs.base[clust] + r && 0 < |d| && o + |d| <= fs.ss
      ensures s < |img| && |img[s]| == fs.ss && fptr + |d| <= |bytes|
      ensures Stores(img[s := Splice(img[s], o, d)], fs.ss, fs.base, fs.csize, chain, Splice(bytes, fptr, d))
      ensures Written(bytes, Splice(bytes, fptr, d), objsize, fptr, d)
    {
      hide PlaceOf, Stores, Volume.Valid;
      DataRun(i, r, 1);
      WritePart(img, fs.base, fs.csize, fs.ss, chain, bytes, fptr, d);
      SplicePrefix(bytes, objsize, fptr, d);
    }

    /** Write into the buffered sector of fptr. */
    method WriteBuffered(d: seq<Byte>, o: nat, ghost i: nat, ghost r: nat)
      requires Linked() && Laid() && Stored() && fptr <= objsize <= |bytes|
      requires PlaceOf(fs.ss, fs.csize, fptr) == Place(i, r, o) && i < |chain| && clust == chain[i] < |fs.base|
      requires sect == fs.base[clust] + r && 0 < |d| && o + |d| <= fs.ss
      modifies this`img, this`bytes, this`dirty, buf
      ensures Linked() && Stored() && dirty
      ensures Written(old(bytes), bytes, objsize, fptr, d)
      ensures SameBut(old(img), img, fs.database, fs.base[clust], fs.csize)
    {
      hide Linked, Laid, PlaceOf, Stores, Written, Volume.Geometry;
      Units();
      DataRun(i, r, 1);
      PartWritten(d, i, r, o, sect);
      Patch(o, d);
      bytes := Splice(bytes, fptr, d);
    }

    /** Write the first bytes of a sector behind the end of the file. */
    method WriteFresh(d: seq<Byte>, s: nat, ghost i: nat, ghost r: nat)
      requires Linked() && Laid() && Stored() && !dirty && fptr == objsize <= |bytes|
      requires PlaceOf(fs.ss, fs.csize, fptr) == Place(i, r, 0) && i < |chain| && clust == chain[i] < |fs.base|
      requires s == fs.base[clust] + r && 0 < |d| <= fs.ss
      modifies this`img, this`bytes, this`dirty, this`sect, buf
      ensures Linked() && Stored() && dirty && sect == s
      ensures Written(old(bytes), bytes, objsize, fptr, d)
      ensures SameBut(old(img), img, fs.database, fs.base[clust], fs.csize)
    {
      DataRun(i, r, 1);
      ghost var e := img;
      StartSector(s, d);
      SameSplice(e, s, [buf[..]], fs.database, fs.base[clust], fs.csize);
      FreshStored(e, s, buf[..], d, i, r);
    }

    /** Image e with the sector s of byte fptr, the end of the file, replaced by x. */
    ghost method FreshStored(e: seq<Sector>, s: nat, x: Sector, d: seq<Byte>, i: nat, r: nat)
      requires Laid() && fptr == objsize <= |bytes| && i < |chain| && clust == chain[i] < |fs.base|
      requires fs.Geometry() && |fs.fat| == fs.nFatent
      requires s < |img| && |x| == fs.ss && d <= x
      requires |e| == |img| && img == Splice(e, s, [x]) && Stores(e, fs.ss, fs.base, fs.csize, chain, bytes)
      requires PlaceOf(fs.ss, fs.csize, fptr) == Place(i, r, 0) && s == fs.base[clust] + r
      modifies this`bytes
      ensures Stored() && Written(old(bytes), bytes, objsize, fptr, d)
    {
      assert [x] == Chunks(x, fs.ss, 1) by {
        assert x[..fs.ss] == x && Chunks(x[fs.ss..], fs.ss, 0) == [];
      }
      WriteRun(e, fs.base, fs.csize, fs.ss, chain, bytes, fptr, 1, s, x);
      WrittenFresh(bytes, objsize, x, d);
      bytes := Splice(bytes, fptr, x);
    }

    /** Write part of sector s: read it first if it is not buffered and holds file data. */
    method WriteInto(d: seq<Byte>, s: nat, ghost i: nat, ghost r: nat) returns (n: nat)
      requires Linked() && Laid() && Stored() && !dirty && fptr <= objsize <= |bytes| && 0 < |d|
      requires PlaceOf(fs.ss, fs.csize, fptr) == Place(i, r, 0) && i < |chain| && clust == chain[i] < |fs.base|
      requires s == fs.base[clust] + r
      modifies this`img, this`bytes, this`dirty, this`sect, buf
      ensures Linked() && Stored() && dirty && 0 < n <= |d|
      ensures Written(old(bytes), bytes, objsize, fptr, d[..n])
      ensures CursorAt(fs.base, fs.ss, fs.csize, chain, fptr + n, clust, sect)
      ensures SameBut(old(img), img, fs.database, fs.base[clust], fs.csize)
    {
      hide Linked, Laid, PlaceOf, Stores, Written, CursorAt, SameBut, Volume.Geometry;
      Units();
      n := Min(fs.ss, |d|);
      DataRun(i, r, 1);
      if sect != s && fptr < objsize {
        Load(s);
      }
      if sect == s {
        WriteBuffered(d[..n], 0, i, r);
      } else {
        WriteFresh(d[..n], s, i, r);
      }
      CursorPart(fs.base, fs.ss, fs.csize, chain, fptr, n, clust, sect);
    }

    /** Write from a sector boundary. */
    method WriteBoundary(d: seq<Byte>, r: nat, ghost i: nat) returns (n: nat)
      requires Linked() && Laid() && Stored() && fptr <= objsize <= |bytes| && 0 < |d|
      requires PlaceOf(fs.ss, fs.csize, fptr) == Place(i, r, 0) && i < |chain| && clust == chain[i]
      modifies this`img, this`bytes, this`dirty, this`sect, buf, fs`disk
      ensures Linked() && Stored() && 0 < n <= |d| && (|d| < fs.ss ==> dirty)
      ensures Written(old(bytes), bytes, objsize, fptr, d[..n])
      ensures CursorAt(fs.base, fs.ss, fs.csize, chain, fptr + n, clust, sect)
      ensures clust < |fs.base| && SameBut(old(img), img, fs.database, fs.base[clust], fs.csize)
    {
      hide Linked, Laid, PlaceOf, Stores, Written, CursorAt, SameBut, Volume.Geometry;
      Units();
      Flush();
      n := WriteWhole(d, r, i);
      if n == 0 {
        Units();
        DataRun(i, r, 1);
        var s := ClusterSector(fs, clust);
        n := WriteInto(d, s + r, i, r);
      }
    }

    /** Write at fptr, whose cluster has been entered. */
    method WriteHere(d: seq<Byte>, a: Place) returns (n: nat)
      requires Linked() && Laid() && Stored() && fptr <= objsize <= |bytes| && 0 < |d|
      requires fs.ss > 0 && fs.csize > 0 && a == PlaceOf(fs.ss, fs.csize, fptr)
      requires a.i < |chain| && clust == chain[a.i] < |fs.base| && (a.o != 0 ==> sect == fs.base[clust] + a.r)
      modifies this`img, this`bytes, this`dirty, this`sect, buf, fs`disk
      ensures Linked() && Stored() && 0 < n <= |d| && (|d| < fs.ss ==> dirty)
      ensures Written(old(bytes), bytes, objsize, fptr, d[..n])
      ensures CursorAt(fs.base, fs.ss, fs.csize, chain, fptr + n, clust, sect)
      ensures SameBut(old(img), img, fs.database, fs.base[clust], fs.csize)
    {
      hide Linked, Laid, PlaceOf, Stores, CursorAt, Written, SameBut, Volume.Geometry;
      Units();
      if a.o == 0 {
        n := WriteBoundary(d, a.r, a.i);
      } else {
        n := Min(fs.ss - a.o, |d|);
        WriteBuffered(d[..n], a.o, a.i, a.r);
        CursorPart(fs.base, fs.ss, fs.csize, chain, fptr, n, clust, sect);
      }
    }

    /** The pointer is at the start of a cluster that a link map gives. */
    ghost predicate AtMapped(a: Place)
      reads this`cltbl, this`fptr, this`bytes
    {
      cltbl != [] && fptr > 0 && a.o == 0 && a.r == 0 && fptr < |bytes|
    }

    /** Come to the cluster of fptr, adding it to the chain if need be. */
    method EnterForWrite(a: Place, ghost astray: bool) returns (clst: nat)
      requires Linked() && OnTrack(astray) && Stored() && MapOk() && fptr <= |bytes| && (Cursor() || AtMapped(a))
      requires cltbl != [] ==> a.i < |chain| || |mapped| <= a.i || a.i == 0
      requires fs.ss > 0 && fs.csize > 0 && a == PlaceOf(fs.ss, fs.csize, fptr)
      modifies this`clust, this`img, this`chain, this`bytes, this`sclust, fs, fs.win
      ensures Linked() && OnTrack(astray) && Stored() && MapOk()
      ensures old(bytes) <= bytes && DataAs(old(img))
      ensures if astray then fs.fat == old(fs.fat) && fs.winsect == old(fs.winsect) && sclust == old(sclust)
              else Grew(old(fs.fat), fs.fat, old(chain), chain)
      ensures chain == old(chain) || (|chain| == a.i + 1 && clst >= 2)
      ensures cltbl != [] && old(chain) != [] ==> chain == old(chain)
      ensures clst < 2 ==> clust == old(clust) && chain == old(chain)
      ensures clst >= 2 ==>
                a.i < |chain| && clust == chain[a.i] < |fs.base| && (a.o != 0 ==> sect == fs.base[clust] + a.r)
      ensures chain == old(chain) ==> fs.freeClst == old(fs.freeClst)
      ensures clst < 2 ==> old(fptr) == |old(bytes)| && fptr == |bytes|
      ensures clst == 0 ==> Full() || (cltbl != [] && chain != [])
      ensures clst == 1 ==> Corrupt(fs.fat) && !astray
      ensures old(Counted(fs.fat, fs.freeClst)) ==> Counted(fs.fat, fs.freeClst)
    {
      hide Linked, OnTrack, Laid, MapOk, PlaceOf, Stores, CursorAt, Full, Corrupt, Counted, Grew, DataAs, Volume.Geometry;
      Units();
      Unchanged();
      TrackFits(astray);
      Allocated(img, fs.base, fs.csize, fs.ss, chain, bytes, fptr);
      PlaceValue(fs.ss, fs.csize, fptr);
      if Cursor() {
        CursorPlace(fs.base, fs.ss, fs.csize, chain, fptr, clust, sect);
      }
      clst := 2;
      if a.o == 0 && a.r == 0 {
        clst := FollowForWrite(a.i, astray);
        Allocated(img, fs.base, fs.csize, fs.ss, chain, bytes, fptr);
        if clst >= 2 {
          TrackLaid(astray);
          DataRun(a.i, 0, 0);
        }
      }
    }

    lemma TrackFits(astray: bool)
      requires Linked() && OnTrack(astray)
      ensures !astray ==> Grew(fs.fat, fs.fat, chain, chain)
    {
      if !astray {
        GrewNot(fs.fat, chain);
      }
    }

    /** The pointer stands at the end of cluster number i: no more clusters than that are needed. */
    lemma GrownToPointer(i: nat)
      requires Laid() && Cursor() && fptr > 0 && fs.ss > 0 && fs.csize > 0
      requires i < |chain| && clust == chain[i]
      ensures ClustersFor(fs.ss, fs.csize, fptr) == i + 1
    {
      CursorClusters(fs.base, fs.ss, fs.csize, chain, fptr, clust, sect);
    }

    /** Write into the cluster that was entered, and move the pointer. */
    method WriteOn(d: seq<Byte>, a: Place, ghost astray: bool) returns (n: nat)
      requires Going(astray) && 0 < |d| && fptr + |d| <= DWORD_MAX
      requires fs.ss > 0 && fs.csize > 0 && a == PlaceOf(fs.ss, fs.csize, fptr)
      requires a.i < |chain| && clust == chain[a.i] < |fs.base| && (a.o != 0 ==> sect == fs.base[clust] + a.r)
      modifies this`fptr, this`objsize, this`img, this`bytes, this`dirty, this`sect, buf, fs`disk
      ensures Going(astray) && Cursor() && 0 < n <= |d| && fptr == old(fptr) + n && (|d| < fs.ss ==> dirty)
      ensures 2 <= clust < |fs.base| && SameBut(old(img), img, fs.database, fs.base[clust], fs.csize)
      ensures old(objsize) <= |old(bytes)| && Content() == Splice(old(Content()), old(fptr), d[..n])
      ensures ClustersFor(fs.ss, fs.csize, fptr) == a.i + 1
    {
      hide Linked, Chained, Laid, MapOk, PlaceOf, Stores, CursorAt, ClustersFor, SameBut, Volume.Geometry;
      TrackLaid(astray);
      DataRun(a.i, 0, 0);
      n := WriteHere(d, a);
      fptr := fptr + n;
      objsize := if fptr > objsize then fptr else objsize;
      GrownToPointer(a.i);
    }

    /** The file had the content c and has d at p now. */
    ghost predicate Adds(c: seq<Byte>, p: nat, d: seq<Byte>)
      reads this`bytes, this`objsize
    {
      objsize <= |bytes| && p <= |c| && Content() == Splice(c, p, d)
    }

    /** One pass of the loop of f_write: how far it got, and 0 or 1 if no cluster could be entered. */
    method WritePiece(d: seq<Byte>, a: Place, ghost astray: bool) returns (clst: nat, n: nat)
      requires fptr <= objsize <= |bytes|
      requires Going(astray) && 0 < |d| && fptr + |d| <= DWORD_MAX && (Cursor() || AtMapped(a))
      requires fs.ss > 0 && fs.csize > 0 && a == PlaceOf(fs.ss, fs.csize, fptr)
      requires cltbl != [] ==> a.i < |chain| || |mapped| <= a.i || a.i == 0
      modifies this`fptr, this`objsize, this`clust, this`sect, this`dirty, this`sclust, this`img, this`chain, this`bytes,
               buf, fs, fs.win
      ensures Going(astray) && Cursor()
      ensures if clst < 2 then dirty == old(dirty) else |d| < fs.ss ==> dirty
      ensures if astray then fs.fat == old(fs.fat) && fs.winsect == old(fs.winsect) && sclust == old(sclust)
              else Grew(old(fs.fat), fs.fat, old(chain), chain)
      ensures chain == old(chain) || |chain| == ClustersFor(fs.ss, fs.csize, fptr) == a.i + 1
      ensures cltbl != [] && old(chain) != [] ==> chain == old(chain)
      ensures if clst < 2 then n == 0 && chain == old(chain) && DataAs(old(img))
              else 0 < n <= |d| && a.i < |chain| && OneAs(old(img), chain[a.i])
      ensures n <= |d| && fptr == old(fptr) + n && Adds(old(bytes[..objsize]), old(fptr), d[..n])
      ensures chain == old(chain) ==> fs.freeClst == old(fs.freeClst)
      ensures clst < 2 ==> old(fptr) == |old(bytes)| && fptr == |bytes|
      ensures clst == 0 ==> Full() || (cltbl != [] && chain != [])
      ensures clst == 1 ==> Corrupt(fs.fat) && !astray
      ensures old(Counted(fs.fat, fs.freeClst)) ==> Counted(fs.fat, fs.freeClst)
    {
      hide Linked, OnTrack, MapOk, PlaceOf, Stored, CursorAt, Full, Corrupt, Counted, Grew, ClustersFor, DataAs, OneAs, SameBut;
      ghost var v := img;
      clst := EnterForWrite(a, astray);
      DataSays(v);
      ghost var w := img;
      assert bytes[..objsize] == old(bytes)[..objsize];
      n := 0;
      if clst < 2 {
        assert Splice(Content(), fptr, d[..n]) == Content();
      } else {
        n := WriteOn(d, a, astray);
        OneThen(v, w);
      }
    }

    /** The data area is as in the image v, but for the cluster c. */
    ghost predicate OneAs(v: seq<Sector>, c: nat)
      reads this`img
    {
      SameElsewhere(v, img, fs.database, fs.base, fs.csize, [c])
    }

    lemma OneThen(v: seq<Sector>, w: seq<Sector>)
      requires SameElsewhere(v, w, fs.database, fs.base, fs.csize, [])
      requires 2 <= clust < |fs.base| && SameBut(w, img, fs.database, fs.base[clust], fs.csize)
      ensures OneAs(v, clust)
    {
      SameInOne(w, img, fs.database, fs.base, fs.csize, [clust], 0);
      SameThen(v, w, img, fs.database, fs.base, fs.csize, [], [clust]);
    }

    lemma DataOthers(v: seq<Sector>)
      requires DataAs(v)
      ensures OthersAs(v) && SameElsewhere(v, img, fs.database, fs.base, fs.csize, chain)
    {
      SameAll(img, fs.database, fs.base, fs.csize, chain);
      SameThen(v, img, img, fs.database, fs.base, fs.csize, [], chain);
    }

    lemma DataSays(v: seq<Sector>)
      requires DataAs(v)
      ensures SameElsewhere(v, img, fs.database, fs.base, fs.csize, [])
    {}

    lemma DataThen(v: seq<Sector>, w: seq<Sector>)
      requires SameElsewhere(v, w, fs.database, fs.base, fs.csize, []) && DataAs(w)
      ensures DataAs(v)
    {
      SameThen(v, w, img, fs.database, fs.base, fs.csize, [], []);
    }

    /** The bytes of a chain that shares no cluster with the file's are still there. */
    lemma OthersStored(v: seq<Sector>, e: seq<nat>, b: seq<Byte>)
      requires Valid() && OthersAs(v) && Stores(v, fs.ss, fs.base, fs.csize, e, b) && Disjoint(e, chain)
      ensures Stores(img, fs.ss, fs.base, fs.csize, e, b)
    {
      SameBytes(v, img, fs.database, fs.ss, fs.base, fs.csize, chain, e, b);
    }

    lemma Sizes()
      requires Valid()
      ensures objsize <= |bytes| && objsize <= DWORD_MAX && (err == FR_OK ==> fptr <= objsize)
      ensures fs.ss > 0 && fs.csize > 0 && ChainOrNone(fs.fat, chain) && Linked() && Chained() && Stored()
      ensures |fs.fat| == fs.nFatent >= 3
    {
      Units();
      ChainFits();
    }

    ghost function Here(): Found
      requires objsize <= |bytes|
      reads this, fs
    {
      Found(fs.fat, chain, img, Content(), fptr, fs.freeClst)
    }

    /** From o to q f_write has written d, all of it to the file's chain. */
    ghost predicate LegitAt(o: Found, d: seq<Byte>, q: Found)
      reads this`cltbl
    {
      && q.pos == o.pos + |d| && o.pos <= |o.content| && fs.ss > 0 && fs.csize > 0
      && Grew(o.fat, q.fat, o.chain, q.chain) && SameElsewhere(o.img, q.img, fs.database, fs.base, fs.csize, q.chain)
      && q.content == Splice(o.content, o.pos, d)
      && (q.chain == o.chain || |q.chain| == ClustersFor(fs.ss, fs.csize, q.pos))
      && (cltbl != [] ==> q.chain == o.chain || (o.chain == [] && |q.chain| == 1)) && (d == [] ==> q.chain == o.chain)
      && (q.chain == o.chain ==> q.free == o.free) && (Counted(o.fat, o.free) ==> Counted(q.fat, q.free))
    }

    /**
    From o to q f_write has written d, and an outdated link map has led it past the end of
    home, the file's chain.
    */
    ghost predicate LostAt(o: Found, d: seq<Byte>, home: seq<nat>, q: Found)
      reads this`mapped
    {
      var room := |home| * fs.csize * fs.ss;
      && q.pos == o.pos + |d| == |q.content| && 0 < |home| < |mapped| && fs.ss > 0 && fs.csize > 0
      && Grew(o.fat, q.fat, o.chain, home) && (home == o.chain || (o.chain == [] && |home| == 1))
      && SameElsewhere(o.img, q.img, fs.database, fs.base, fs.csize, home + mapped[|home|..])
      && o.pos <= room <= q.pos && q.content[room..] == d[room - o.pos..]
      && (home <= mapped ==> o.pos <= |o.content| && q.content == Splice(o.content, o.pos, d))
      && (home == o.chain ==> q.free == o.free) && (Counted(o.fat, o.free) ==> Counted(q.fat, q.free))
    }

    /** The FAT still holds the file's chain. */
    ghost predicate Homed(home: seq<nat>)
      reads this`sclust, this`mapped, fs`fat, fs`winsect
    {
      && IsChain(fs.fat, home) && home[0] == sclust && Clear(home) && Clear(mapped)
      && (home <= mapped || |home| == 1)
    }

    /** How far f_write has got; home is the chain it has left, if it has. */
    ghost predicate Under(o: Found, d: seq<Byte>, home: seq<nat>)
      reads this, fs, fs.win, buf
    {
      && Going(home != []) && if home == [] then LegitAt(o, d, Here()) else LostAt(o, d, home, Here()) && Homed(home)
    }

    /** The link map leads on where the chain ends. */
    ghost predicate Tempted()
      reads this`cltbl, this`chain, this`mapped, this`fptr, this`bytes
    {
      cltbl != [] && 0 < |chain| < |mapped| && fptr == |bytes|
    }

    /** The clusters of the map are clusters of the volume that hold some bytes. */
    lemma MapStores()
      requires Linked() && Stored() && Chained() && MapOk() && cltbl != []
      ensures OnDisk(|img|, fs.base, fs.csize, mapped) && Clear(mapped)
      ensures Stores(img, fs.ss, fs.base, fs.csize, mapped, BytesOf(img, fs.ss, fs.base, fs.csize, mapped))
    {}

    /** The start of a cluster. */
    lemma StartOfCluster(k: nat)
      requires fs.ss > 0 && fs.csize > 0
      ensures PlaceOf(fs.ss, fs.csize, k * fs.csize * fs.ss) == Place(k, 0, 0)
      ensures k > 0 ==> k * fs.csize * fs.ss > 0
    {
      PlaceUnique(fs.ss, fs.csize, k, 0, 0);
      if k > 0 {
        MulMono(1, k, fs.csize);
        MulMono(1, k * fs.csize, fs.ss);
      }
    }

    /** From the file's chain to the clusters of the map. */
    ghost method Stray(o: Found, d: seq<Byte>)
      requires Under(o, d, []) && Tempted()
      modifies this`chain, this`bytes
      ensures Under(o, d, old(chain)) && fptr == |old(chain)| * fs.csize * fs.ss < |bytes|
      ensures PlaceOf(fs.ss, fs.csize, fptr) == Place(|old(chain)|, 0, 0)
    {
      hide Linked, Grew, ClustersFor, Counted, PlaceOf, SameElsewhere;
      var h, c := chain, Content();
      Room();
      MapStores();
      StartOfCluster(|h|);
      ChainHomed();
      RoomMore(|h|, |mapped|);
      SameMore(o.img, img, fs.database, fs.base, fs.csize, h, mapped[|h|..]);
      if h <= mapped {
        StoresLonger(img, fs.ss, fs.base, fs.csize, h, bytes, mapped);
      }
      bytes := BytesOf(img, fs.ss, fs.base, fs.csize, mapped);
      chain := mapped;
      assert h <= mapped ==> Content() == c;
    }

    lemma ChainHomed()
      requires Chained() && chain != [] && MapOk() && cltbl != []
      ensures Homed(chain)
    {}

    lemma RoomMore(j: nat, k: nat)
      requires j < k && fs.ss > 0 && fs.csize > 0
      ensures j * fs.csize * fs.ss < k * fs.csize * fs.ss
    {
      RoomAtStart(fs.ss, fs.csize, k, j);
      assert j * fs.csize * fs.ss == j * (fs.csize * fs.ss);
    }

    /** f_write goes on along the chain. */
    lemma LegitMore(o: Found, d: seq<Byte>, q: Found, e: seq<Byte>, i: nat)
      requires LegitAt(o, d, q) && Going(false) && objsize <= |bytes|
      requires fptr == q.pos + |e| && q.pos <= |q.content| && Content() == Splice(q.content, q.pos, e)
      requires Grew(q.fat, fs.fat, q.chain, chain) && (chain == q.chain || |chain| == ClustersFor(fs.ss, fs.csize, fptr))
      requires if e == [] then chain == q.chain && DataAs(q.img) else i < |chain| && OneAs(q.img, chain[i])
      requires ClustersFor(fs.ss, fs.csize, fptr) <= |chain|
      requires cltbl != [] ==> chain == q.chain || (q.chain == [] && |chain| == 1)
      requires (chain == q.chain ==> fs.freeClst == q.free) && (Counted(q.fat, q.free) ==> Counted(fs.fat, fs.freeClst))
      ensures Under(o, d + e, [])
    {
      hide Going, Grew, ClustersFor, Counted, Splice, SameElsewhere;
      GrewMore(o.fat, q.fat, fs.fat, o.chain, q.chain, chain);
      GrewLonger(o.fat, q.fat, o.chain, q.chain);
      GrewLonger(q.fat, fs.fat, q.chain, chain);
      ClustersMono(fs.ss, fs.csize, q.pos, fptr);
      SpliceTwice(o.content, o.pos, d, e);
      SameBoth(o.img, q.img, img, fs.database, fs.base, fs.csize, q.chain, if e == [] then [] else [chain[i]], chain);
    }

    /** f_write goes on along the map. */
    lemma LostMore(o: Found, d: seq<Byte>, home: seq<nat>, q: Found, e: seq<Byte>, i: nat)
      requires LostAt(o, d, home, q) && Homed(home) && Going(true) && objsize <= |bytes|
      requires fptr == q.pos + |e| && Content() == Splice(q.content, q.pos, e)
      requires fs.fat == q.fat && fs.freeClst == q.free
      requires if e == [] then DataAs(q.img) else |home| <= i < |mapped| && OneAs(q.img, mapped[i])
      ensures Under(o, d + e, home)
    {
      hide Going, Grew, Counted, SameElsewhere, Homed;
      if home <= mapped {
        SpliceTwice(o.content, o.pos, d, e);
      }
      var c := home + mapped[|home|..];
      assert e != [] ==> mapped[i] == c[i];
      SameBoth(o.img, q.img, img, fs.database, fs.base, fs.csize, c, if e == [] then [] else [mapped[i]], c);
    }

    /** Where the map does not lead on, the next cluster is the file's, or the map has none, or it is the first. */
    lemma NextIsOwn(a: Place)
      requires Stored() && Cursor() && fptr <= |bytes| && !Tempted()
      requires fs.ss > 0 && fs.csize > 0 && a == PlaceOf(fs.ss, fs.csize, fptr)
      ensures cltbl != [] ==> a.i < |chain| || |mapped| <= a.i || a.i == 0
    {
      hide PlaceOf, Stores;
      Allocated(img, fs.base, fs.csize, fs.ss, chain, bytes, fptr);
      CursorPlace(fs.base, fs.ss, fs.csize, chain, fptr, clust, sect);
      Room();
      StartOfCluster(0);
    }

    lemma NextOnTrack(a: Place, astray: bool)
      requires Going(astray) && Cursor() && !(!astray && Tempted())
      requires fs.ss > 0 && fs.csize > 0 && a == PlaceOf(fs.ss, fs.csize, fptr)
      ensures cltbl != [] ==> a.i < |chain| || |mapped| <= a.i || a.i == 0
    {
      hide Linked, Stored, CursorAt, PlaceOf, Laid, MapOk;
      if !astray {
        NextIsOwn(a);
      }
    }

    lemma UnderSays(o: Found, d: seq<Byte>, home: seq<nat>)
      requires Under(o, d, home)
      ensures Going(home != []) && fs.ss > 0 && fs.csize > 0 && Linked() && Stored() && fptr <= objsize <= |bytes| && fptr == o.pos + |d|
      ensures home == [] ==> LegitAt(o, d, Here())
      ensures home != [] ==> LostAt(o, d, home, Here()) && Homed(home) && chain == mapped && cltbl != [] && fptr > 0
      ensures home != [] ==> o.pos <= |home| * fs.csize * fs.ss <= fptr == objsize && |home| < |mapped|
    {
      hide Linked, Stored, Laid, Chained, MapOk, Grew, Counted, SameElsewhere, Splice;
    }

    lemma FirstPlace(a: Place)
      requires Stored() && fptr <= |bytes| && fs.ss > 0 && fs.csize > 0 && a == PlaceOf(fs.ss, fs.csize, fptr)
      ensures chain == [] ==> a.i == 0
    {
      Room();
      StartOfCluster(0);
    }

    lemma BehindHome(home: seq<nat>, a: Place)
      requires fs.ss > 0 && fs.csize > 0 && a == PlaceOf(fs.ss, fs.csize, fptr) && |home| * fs.csize * fs.ss <= fptr
      ensures |home| <= a.i
    {
      PlaceRoom(fs.ss, fs.csize, |home|, fptr);
    }

    lemma HeldNow(astray: bool)
      requires Going(astray) && Cursor() && fs.ss > 0 && fs.csize > 0
      ensures ClustersFor(fs.ss, fs.csize, fptr) <= |chain|
    {
      CursorClusters(fs.base, fs.ss, fs.csize, chain, fptr, clust, sect);
    }

    /** The pointer is behind what the chain has room for. */
    ghost predicate Past(home: seq<nat>)
      reads this`fptr
    {
      |home| * fs.csize * fs.ss < fptr
    }

    /** One pass of the loop of f_write, on the file's chain or on the clusters of the map. */
    method WritePass(d: seq<Byte>, ghost o: Found, ghost e: seq<Byte>, ghost home: seq<nat>)
      returns (clst: nat, n: nat, ghost now: seq<nat>)
      requires Under(o, e, home) && Cursor() && 0 < |d| && fptr + |d| <= DWORD_MAX && (home != [] ==> Past(home))
      modifies this`fptr, this`objsize, this`clust, this`sect, this`dirty, this`sclust, this`img, this`chain, this`bytes,
               buf, fs, fs.win
      ensures n <= |d| && Under(o, e + d[..n], now) && Cursor() && fptr == old(fptr) + n
      ensures clst < 2 ==> n == 0 && now == home && dirty == old(dirty) && fptr == |bytes| && !(home == [] && Tempted())
      ensures clst >= 2 ==> 0 < n && (|d| < fs.ss ==> dirty)
      ensures clst == 0 ==> now != [] || Full() || (cltbl != [] && chain != [])
      ensures clst == 1 ==> now == [] && Corrupt(fs.fat)
      ensures now != [] ==> Past(now)
    {
      hide Linked, Stored, OnTrack, MapOk, Full, Corrupt, PlaceOf, CursorAt, LegitAt, LostAt, Homed, OneAs, DataAs, Grew, Counted,
           ClustersFor, Splice;
      UnderSays(o, e, home);
      now := home;
      if home == [] && Tempted() {
        now := chain;
        Stray(o, e);
      }
      UnderSays(o, e, now);
      var a := PlaceOf(fs.ss, fs.csize, fptr);
      ghost var q := Here();
      if now == home {
        NextOnTrack(a, home != []);
      }
      if now != [] {
        BehindHome(now, a);
      }
      FirstPlace(a);
      clst, n := WritePiece(d, a, now != []);
      HeldNow(now != []);
      if now == [] {
        LegitMore(o, e, q, d[..n], a.i);
      } else {
        LostMore(o, e, now, q, d[..n], a.i);
      }
    }
    /** The loop of f_write; it stops early, with 0 or 1, if no cluster could be entered. */
    method WriteAll(data: seq<Byte>) returns (clst: nat, bw: nat, ghost home: seq<nat>)
      requires Going(false) && Cursor() && fptr + |data| <= DWORD_MAX
      modifies this`fptr, this`objsize, this`clust, this`sect, this`dirty, this`sclust, this`img, this`chain, this`bytes,
               buf, fs, fs.win
      ensures bw <= |data| && Under(old(Here()), data[..bw], home) && Cursor()
      ensures (clst >= 2 ==> bw == |data|) && (bw > 0 && |data| < fs.ss ==> dirty)
      ensures clst < 2 ==> fptr == |bytes| && !(home == [] && Tempted())
      ensures clst == 0 ==> home != [] || Full() || (cltbl != [] && chain != [])
      ensures clst == 1 ==> home == [] && Corrupt(fs.fat)
      ensures home != [] ==> Past(home)
    {
      hide Going, Full, Corrupt, CursorAt, LegitAt, LostAt, Homed, Under, Past;
      clst, bw, home := 2, 0, [];
      GoingSays(false);
      ghost var o := Here();
      NothingYet();
      while bw < |data|
        invariant bw <= |data| && Under(o, data[..bw], home) && Cursor() && clst >= 2 && fptr == o.pos + bw
        invariant bw > 0 && |data| < fs.ss ==> dirty
        invariant home != [] ==> Past(home)
      {
        var n;
        ghost var was := home;
        UnderSays(o, data[..bw], was);
        clst, n, home := WritePass(data[bw..], o, data[..bw], was);
        UnderSays(o, data[..bw] + data[bw..][..n], home);
        assert data[..bw] + data[bw..][..n] == data[..bw + n];
        if clst < 2 {
          break;
        }
        bw := bw + n;
      }
    }

    lemma MayGo()
      requires Valid() && MapOk() && err == FR_OK
      ensures Going(false) && Cursor()
    {}

    lemma GoingSays(astray: bool)
      requires Going(astray)
      ensures fptr <= objsize <= |bytes|
    {}

    lemma NothingYet()
      requires Going(false) && objsize <= |bytes|
      ensures Under(Here(), [], [])
    {
      hide Linked, Stored, MapOk, ClustersFor, Counted, Grew;
      Units();
      Unchanged();
      ChainFits();
      GrewNot(fs.fat, chain);
    }

    lemma HeldByChain()
      requires Valid() && err == FR_OK
      ensures fs.ss > 0 && fs.csize > 0 && ClustersFor(fs.ss, fs.csize, fptr) <= |chain|
    {
      Units();
      CursorClusters(fs.base, fs.ss, fs.csize, chain, fptr, clust, sect);
    }

    lemma HoldsPointer()
      requires Valid()
      ensures fs.ss > 0 && fs.csize > 0 && (err == FR_OK ==> ClustersFor(fs.ss, fs.csize, fptr) <= |chain|)
    {
      Sizes();
      if err == FR_OK {
        HeldByChain();
      }
    }

    /** What f_write has to go by: no error before, and the right to write. */
    ghost predicate Writable()
      reads this`err
    {
      err == FR_OK && canWrite
    }

    /** Whether the link map leads f_write astray can be told before. */
    lemma WhetherLost(o: Found, d: seq<Byte>, bw: nat, clst: nat, home: seq<nat>)
      requires bw <= |d| && Under(o, d[..bw], home) && fs.ss > 0 && fs.csize > 0
      requires clst >= 2 ==> bw == |d|
      requires clst < 2 ==> fptr == |bytes| && !(home == [] && Tempted())
      requires home != [] ==> Past(home)
      ensures var h := HeldBy(o.chain);
              home != [] <==> cltbl != [] && h < |mapped| && h * fs.csize * fs.ss < o.pos + |d| && chain != []
    {
      hide Linked, Grew, ClustersFor, Counted, SameElsewhere, MapOk, Laid, Chained, Splice;
      UnderSays(o, d[..bw], home);
      Room();
    }

    /**
    f_write has followed an outdated link map: the last bytes of d are in clusters that the
    map lists and the FAT does not link to the file, whose chain is too short for its size.
    Seen through the map the file is right if the map begins with the chain.
    */
    ghost predicate Astray(o: Found, d: seq<Byte>)
      reads this, fs, fs.win, buf
    {
      && Linked() && Chained() && Stored() && err == FR_OK && fs.ss > 0 && fs.csize > 0
      && |bytes| < objsize == fptr <= |mapped| * fs.csize * fs.ss && objsize <= DWORD_MAX
      && CursorAt(fs.base, fs.ss, fs.csize, mapped, fptr, clust, sect)
      && LostAt(o, d, chain, Found(fs.fat, chain, img, BytesOf(img, fs.ss, fs.base, fs.csize, mapped)[..fptr], fptr, fs.freeClst))
    }

    /** What the file has left behind is its chain again. */
    ghost method ComeHome(o: Found, d: seq<Byte>, home: seq<nat>)
      requires Under(o, d, home) && home != [] && Cursor() && Past(home)
      modifies this`chain, this`bytes
      ensures Astray(o, d) && chain == home && MapOk()
    {
      hide Linked, Grew, Counted, SameElsewhere, Splice, Maps, BytesOf, LostAt, IsChain, CursorAt;
      UnderSays(o, d, home);
      HomeStores(home);
      LostLonger(o, d, home, Here());
      bytes := BytesOf(img, fs.ss, fs.base, fs.csize, home);
      chain := home;
    }

    lemma HomeStores(home: seq<nat>)
      requires Linked() && Stored() && Homed(home)
      ensures fs.ss > 0 && fs.csize > 0 && sclust != 0 && home != []
      ensures Stores(img, fs.ss, fs.base, fs.csize, home, BytesOf(img, fs.ss, fs.base, fs.csize, home))
      ensures bytes == BytesOf(img, fs.ss, fs.base, fs.csize, chain) && |bytes| == |chain| * fs.csize * fs.ss
      ensures |BytesOf(img, fs.ss, fs.base, fs.csize, home)| == |home| * fs.csize * fs.ss
    {}

    /** Which chain is named as that of q does not matter. */
    lemma LostLonger(o: Found, d: seq<Byte>, home: seq<nat>, q: Found)
      requires LostAt(o, d, home, q)
      ensures LostAt(o, d, home, q.(chain := home))
    {
      hide Grew, Counted, SameElsewhere, Splice;
    }

    /**
    f_write. On the file's chain it writes all it is given, up to the size limit, unless no
    cluster is free or a link map ends; the chain grows no further than the bytes need, and
    nothing else in the FAT changes. An outdated link map leads it astray if and only if the
    map is longer than the chain and the bytes are, too.
    */
    method Write(data: seq<Byte>) returns (res: FResult, bw: nat)
      requires Valid() && MapOk() && |data| <= DWORD_MAX
      modifies this, buf, fs, fs.win
      ensures MapOk() && cltbl == old(cltbl) && mapped == old(mapped) && (old(Flagged()) ==> Flagged())
      ensures modified == if old(Writable()) && res == FR_OK then true else old(modified)
      ensures EntryIs(old(entryClust), old(entrySize), old(noted)) && (old(Recorded()) ==> Recorded())
      ensures old(objsize) <= |old(bytes)| && Grew(old(fs.fat), fs.fat, old(chain), chain)
      ensures Valid() <==> !old(Writable() && Leaves(|data|)) || chain == []
      ensures bw <= |data|
      ensures !Valid() ==> res == FR_OK && Astray(old(Here()), data[..bw])
      ensures !Valid() && bw < Min(|data|, DWORD_MAX - old(fptr)) ==> fptr == |mapped| * fs.csize * fs.ss
      ensures Valid() ==> objsize <= |bytes| && OthersAs(old(img))
      ensures old(Writable()) && res == FR_INT_ERR ==>
                Valid() && fptr == |bytes| && modified == old(modified) && (bw > 0 && |data| < fs.ss ==> dirty)
      ensures chain == old(chain) ==> fs.freeClst == old(fs.freeClst)
      ensures old(err) != FR_OK ==> res == old(err) == err
      ensures old(err) == FR_OK && !canWrite ==> res == FR_DENIED && err == FR_OK
      ensures !old(Writable()) ==> Valid() && bw == 0 && Content() == old(Content()) && fptr == old(fptr) && chain == old(chain)
      ensures old(Writable()) ==>
                (res == FR_OK || (res == FR_INT_ERR && old(Corrupt(fs.fat)))) && err == res && fptr == old(fptr) + bw
      ensures old(Writable()) && Valid() ==>
                old(fptr) <= old(objsize) && Content() == Splice(old(Content()), old(fptr), data[..bw])
      ensures old(Writable()) && Valid() && res == FR_OK && bw < Min(|data|, DWORD_MAX - old(fptr)) ==>
                fptr == |bytes| && (Full() || (cltbl != [] && chain != []))
      ensures fs.ss > 0 && fs.csize > 0 && (Valid() ==> chain == old(chain) || |chain| == ClustersFor(fs.ss, fs.csize, fptr))
      ensures old(Counted(fs.fat, fs.freeClst)) ==> Counted(fs.fat, fs.freeClst)
      ensures Corrupt(fs.fat) <==> old(Corrupt(fs.fat))
      ensures bw == 0 || (cltbl != [] && old(chain) != []) ==> chain == old(chain)
      ensures old(Sound()) && old(chain) == [] ==> (chain == [] <==> data == [] || !old(Writable()) || NoFree(old(fs.fat)))
      ensures cltbl != [] ==> chain == old(chain) || |chain| == 1
      ensures old(Mapped()) && old(Sound()) ==>
                (Mapped() <==> cltbl == [] || old(chain) != [] || data == [] || !old(Writable()) || NoFree(old(fs.fat)))
    {
      hide Valid, MapOk, Maps, Leaves, Full, Corrupt, Counted, Grew, ClustersFor, Splice, NoFree, Stored, Linked, Chained, OthersAs,
           Astray, LegitAt;
      bw := 0;
      Sizes();
      Unchanged();
      GrewNot(fs.fat, chain);
      if err != FR_OK {
        return err, bw;
      }
      if !canWrite {
        return FR_DENIED, bw;
      }
      ghost var o, home := Here(), [];
      res, bw, home := WriteAllowed(data);
      FatAfter(o, data[..bw]);
      if home == [] {
        LegitSays(o, data[..bw]);
      }
    }

    lemma LegitSays(o: Found, d: seq<Byte>)
      requires objsize <= |bytes| && LegitAt(o, d, Here())
      ensures OthersAs(o.img) && o.pos <= |o.content| && Content() == Splice(o.content, o.pos, d) && fs.ss > 0 && fs.csize > 0
      ensures chain == o.chain || |chain| == ClustersFor(fs.ss, fs.csize, fptr)
      ensures d == [] ==> chain == o.chain
    {
      hide Grew, Counted, SameElsewhere, Splice, ClustersFor;
    }

    /** f_write after its checks. */
    method WriteAllowed(data: seq<Byte>) returns (res: FResult, bw: nat, ghost home: seq<nat>)
      requires Valid() && MapOk() && |data| <= DWORD_MAX && err == FR_OK
      modifies this`fptr, this`objsize, this`clust, this`sect, this`dirty, this`sclust, this`img, this`chain, this`bytes,
               this`err, this`modified, buf, fs, fs.win
      ensures MapOk() && Flagged() && bw <= |data| && old(objsize) <= |old(bytes)|
      ensures home == [] ==> Valid() && objsize <= |bytes| && LegitAt(old(Here()), data[..bw], Here())
      ensures home != [] ==> !Valid() && res == FR_OK && Astray(old(Here()), data[..bw])
      ensures home != [] <==> old(Leaves(|data|)) && chain != []
      ensures (res == FR_OK || (res == FR_INT_ERR && Corrupt(fs.fat))) && err == res && fptr == old(fptr) + bw
      ensures res == FR_INT_ERR ==> fptr == |bytes| && modified == old(modified) && (bw > 0 && |data| < fs.ss ==> dirty)
      ensures res == FR_OK ==> modified
      ensures res == FR_OK && bw < Min(|data|, DWORD_MAX - old(fptr)) ==>
                if home == [] then fptr == |bytes| && (Full() || (cltbl != [] && chain != []))
                else fptr == |mapped| * fs.csize * fs.ss
      ensures home != [] ==> bw > 0
      ensures old(chain) == [] && old(Sound()) ==> (chain == [] <==> data == [] || NoFree(old(fs.fat)))
    {
      hide Linked, Chained, Stored, MapOk, Maps, Full, Corrupt, Counted, Grew, ClustersFor, Splice, NoFree, SameElsewhere,
           Astray, LegitAt, LostAt, Homed, CursorAt, Going, Under, Valid, Laid;
      Sizes();
      MayGo();
      var btw := |data|;
      if fptr + btw > DWORD_MAX {
        btw := DWORD_MAX - fptr;
      }
      ghost var o := Here();
      var clst;
      clst, bw, home := WriteAll(data[..btw]);
      assert data[..btw][..bw] == data[..bw];
      WhetherLost(o, data[..btw], bw, clst, home);
      UnderSays(o, data[..bw], home);
      Room();
      FirstTaken(o, data[..btw], bw, clst, home);
      Note(clst, o, data[..bw], home);
      res := err;
    }

    /** The end of f_write: the error, or a note that the file has changed. */
    method Note(clst: nat, ghost o: Found, ghost d: seq<Byte>, ghost home: seq<nat>)
      requires Under(o, d, home) && Cursor() && (home != [] ==> clst != 1 && Past(home))
      modifies this`err, this`modified, this`chain, this`bytes
      ensures MapOk() && Flagged() && err == (if clst == 1 then FR_INT_ERR else FR_OK)
      ensures if clst == 1 then modified == old(modified) else modified
      ensures home == [] ==> Valid() && objsize <= |bytes| && LegitAt(o, d, Here()) && chain == old(chain) && bytes == old(bytes)
      ensures home != [] ==> !Valid() && Astray(o, d) && chain == home
    {
      hide Linked, Chained, Laid, Stored, CursorAt, Maps, LegitAt, LostAt;
      if home != [] {
        ComeHome(o, d, home);
      }
      if clst == 1 {
        err := FR_INT_ERR;
      } else {
        modified := true;
      }
    }

    /** What f_write does to the FAT, astray or not. */
    lemma FatAfter(o: Found, d: seq<Byte>)
      requires (objsize <= |bytes| && LegitAt(o, d, Here())) || Astray(o, d)
      ensures Grew(o.fat, fs.fat, o.chain, chain) && (Corrupt(fs.fat) <==> Corrupt(o.fat))
      ensures (chain == o.chain ==> fs.freeClst == o.free) && (Counted(o.fat, o.free) ==> Counted(fs.fat, fs.freeClst))
      ensures cltbl != [] ==> chain == o.chain || (o.chain == [] && |chain| == 1)
    {
      hide Grew, Corrupt, Counted, Linked, Chained, Stored, CursorAt, SameElsewhere, Splice, ClustersFor;
      GrewSound(o.fat, fs.fat, o.chain, chain);
    }

    /** Whether an empty file gets a cluster. */
    lemma FirstTaken(o: Found, d: seq<Byte>, bw: nat, clst: nat, home: seq<nat>)
      requires bw <= |d| && Under(o, d[..bw], home) && (clst >= 2 ==> bw == |d|)
      requires (clst < 2 ==> fptr == |bytes|) && (clst == 0 && home == [] ==> Full() || (cltbl != [] && chain != []))
      requires (clst == 1 ==> home == [] && Corrupt(fs.fat)) && (home != [] ==> bw > 0)
      ensures o.chain == [] && !Corrupt(o.fat) && Counted(o.fat, o.free) && |o.fat| >= 3 ==>
                (home == [] && chain == [] <==> d == [] || NoFree(o.fat))
    {
      hide Linked, Chained, Laid, MapOk, Grew, Corrupt, Counted, NoFree, SameElsewhere, ClustersFor, Full, Splice;
      UnderSays(o, d[..bw], home);
      if o.chain == [] {
        var c := if home == [] then chain else home;
        NoneToTake(o.fat, fs.fat, c);
        GrewSound(o.fat, fs.fat, [], c);
        NoBytes();
        if clst == 0 && bw == 0 && home == [] {
          NothingTaken(o.fat);
        }
      }
    }

    lemma NoBytes()
      requires Stored()
      ensures chain == [] ==> bytes == []
    {}

    /** A first write that comes to nothing found no free cluster. */
    lemma NothingTaken(f: seq<nat>)
      requires Grew(f, fs.fat, [], chain) && fptr == |bytes| == 0 && Stored() && fs.ss > 0 && fs.csize > 0
      requires Full() || chain != []
      ensures chain == [] && fs.fat == f && (Counted(f, fs.freeClst) && |f| >= 3 ==> NoFree(f))
    {
      MulMono(1, fs.csize, fs.ss);
      assert |chain| * fs.csize * fs.ss == |chain| * (fs.csize * fs.ss);
      MulMono(|chain|, |chain| * (fs.csize * fs.ss), 1);
      NoneCounted(f);
    }

    // ---- Seeking ---------------------------------------------------------------------------

    /** The file stands on cluster number k of its chain, fptr at the start of that cluster. */
    ghost predicate OnCluster(k: nat)
      reads this`chain, this`clust, this`fptr
    {
      k < |chain| && clust == chain[k] && fptr == k * (fs.csize * fs.ss)
    }

    /** One step of the cluster following loop: 0 or 1 if the next cluster could not be had. */
    method NextCluster(ghost k: nat, ghost t: nat) returns (clst: nat)
      requires Linked() && Chained() && Stored() && fs.ss > 0 && fs.csize > 0
      requires k < |chain| && clust == chain[k] && fptr == (k + 1) * (fs.csize * fs.ss) < t && (!canWrite ==> t <= |bytes|)
      modifies this`clust, this`img, this`chain, this`bytes, this`sclust, fs, fs.win
      ensures Linked() && Chained() && Stored() && old(bytes) <= bytes && DataAs(old(img))
      ensures t <= |old(bytes)| ==> chain == old(chain) && clst >= 2
      ensures clst >= 2 ==> OnCluster(k + 1)
      ensures clst < 2 ==> chain == old(chain) && clust == chain[k] && |chain| == k + 1
      ensures Grew(old(fs.fat), fs.fat, old(chain), chain) && (clst >= 2 ==> |chain| == Max(|old(chain)|, k + 2))
      ensures clst == 0 ==> Full()
      ensures clst == 1 ==> Corrupt(fs.fat)
      ensures old(Counted(fs.fat, fs.freeClst)) ==> Counted(fs.fat, fs.freeClst)
    {
      hide Linked, Stores, PlaceOf, Full, Corrupt, Counted, Grew, DataAs;
      RoomAtStart(fs.ss, fs.csize, |chain|, k + 1);
      Room();
      LaidOut();
      GrewNot(fs.fat, chain);
      if canWrite {
        clst := Stretch(clust, k + 1);
      } else {
        assert fs.fat[chain[k]] == chain[k + 1];
        DataRun(k, 0, 0);
        clst := FatNext(clust);
      }
      if clst >= 2 {
        clust := clst;
      }
    }

    lemma Room()
      requires Stored()
      ensures |bytes| == |chain| * fs.csize * fs.ss
    {}

    /** The cluster following loop of f_lseek. */
    method Walk(ghost k0: nat, want: nat) returns (clst: nat, ofs: nat, ghost k: nat)
      requires Linked() && Chained() && Stored() && fs.ss > 0 && fs.csize > 0
      requires OnCluster(k0) && 0 < want && (!canWrite ==> fptr + want <= |bytes|)
      modifies this`clust, this`fptr, this`img, this`chain, this`bytes, this`sclust, fs, fs.win
      ensures Linked() && Chained() && Stored() && old(bytes) <= bytes && DataAs(old(img))
      ensures old(fptr) + want <= |old(bytes)| ==> chain == old(chain) && clst >= 2
      ensures clst >= 2 ==> OnCluster(k) && 0 < ofs <= fs.csize * fs.ss && fptr + ofs == old(fptr) + want
      ensures clst < 2 ==> |chain| == k + 1 && clust == chain[k] && fptr == (k + 1) * (fs.csize * fs.ss) < old(fptr) + want
      ensures Grew(old(fs.fat), fs.fat, old(chain), chain) && |chain| == Max(|old(chain)|, k + 1) && k >= k0
      ensures clst == 0 ==> Full()
      ensures clst == 1 ==> Corrupt(fs.fat)
      ensures old(Counted(fs.fat, fs.freeClst)) ==> Counted(fs.fat, fs.freeClst)
    {
      hide Linked, Chained, Stored, Full, Corrupt, Counted, Grew, DataAs;
      k, ofs, clst := k0, want, 2;
      ghost var v := img;
      Unchanged();
      ghost var f, ch := fs.fat, chain;
      ChainFits();
      GrewNot(f, ch);
      var bcs := fs.csize * fs.ss;
      assert bcs > 0 by { MulMono(1, fs.csize, fs.ss); }
      ghost var t := fptr + want;
      while ofs > bcs
        invariant Linked() && Chained() && Stored() && old(bytes) <= bytes && DataAs(v)
        invariant t <= |old(bytes)| ==> chain == old(chain)
        invariant clst >= 2 && OnCluster(k) && 0 < ofs && fptr + ofs == t
        invariant !canWrite ==> t <= |bytes|
        invariant Grew(f, fs.fat, ch, chain) && |chain| == Max(|ch|, k + 1) && k >= k0
        invariant old(Counted(fs.fat, fs.freeClst)) ==> Counted(fs.fat, fs.freeClst)
        decreases ofs
      {
        ofs, fptr := ofs - bcs, fptr + bcs;
        assert (k + 1) * bcs == k * bcs + bcs;
        ghost var g, dh, w := fs.fat, chain, img;
        DataSays(v);
        clst := NextCluster(k, t);
        DataThen(v, w);
        GrewMore(f, g, fs.fat, ch, dh, chain);
        if clst < 2 {
          return;
        }
        k := k + 1;
      }
    }

    /** Where f_lseek starts from: the current cluster, or the first one. */
    method Begin(ofs: nat) returns (clst: nat, rem: nat, ghost k: nat)
      requires Linked() && Chained() && Stored() && Cursor() && fs.ss > 0 && fs.csize > 0
      requires 0 < ofs && (!canWrite ==> ofs <= |bytes|)
      modifies this`clust, this`fptr, this`img, this`chain, this`bytes, this`sclust, fs, fs.win
      ensures Linked() && Chained() && Stored() && old(bytes) <= bytes && DataAs(old(img))
      ensures ofs <= |old(bytes)| ==> chain == old(chain) && clst >= 2
      ensures clst >= 2 ==> OnCluster(k) && 0 < rem && fptr + rem == ofs
      ensures clst < 2 ==> fptr == 0 && chain == old(chain) && bytes == []
      ensures Grew(old(fs.fat), fs.fat, old(chain), chain) && (clst >= 2 ==> |chain| == Max(|old(chain)|, k + 1))
      ensures clst == 0 ==> Full()
      ensures clst == 1 ==> Corrupt(fs.fat)
      ensures old(Counted(fs.fat, fs.freeClst)) ==> Counted(fs.fat, fs.freeClst)
    {
      hide Linked, Stores, PlaceOf, Full, Corrupt, Counted, Grew, DataAs;
      GrewNot(fs.fat, chain);
      Unchanged();
      var bcs := fs.csize * fs.ss;
      ghost var p := if fptr > 0 then fptr - 1 else 0;
      PlaceCluster(fs.ss, fs.csize, p);
      Room();
      if fptr > 0 && (ofs - 1) / bcs >= (fptr - 1) / bcs {
        k := (fptr - 1) / bcs;
        SameOrLater(fptr - 1, ofs - 1, bcs);
        fptr := (fptr - 1) / bcs * bcs;
        rem, clst := ofs - fptr, clust;
        LaidOut();
        DataRun(k, 0, 0);
      } else {
        fptr, rem, k := 0, ofs, 0;
        clst := sclust;
        if clst == 0 {
          clst := Stretch(0, 0);
          Room();
          if clst == 1 {
            return;
          }
        }
        clust := clst;
      }
    }

    /** The end of f_lseek: move ofs bytes into the cluster and buffer the sector there. */
    method Settle(ghost k: nat, ofs: nat)
      requires Linked() && Chained() && Stored() && fs.ss > 0 && fs.csize > 0
      requires OnCluster(k) && 0 < ofs <= fs.csize * fs.ss
      requires objsize <= |bytes| && fptr + ofs <= DWORD_MAX && objsize <= DWORD_MAX
      modifies this`fptr, this`objsize, this`modified, this`sect, this`dirty, buf, fs`disk
      ensures Shape() && Cursor() && fptr == old(fptr) + ofs <= objsize
      ensures (dirty ==> old(dirty)) && (modified <==> old(modified) || objsize != old(objsize))
      ensures objsize == if fptr > old(objsize) then fptr else old(objsize)
    {
      hide Linked, Chained, Laid, Stores, PlaceOf, CursorAt, Volume.Geometry;
      Units();
      LaidOut();
      DataRun(k, 0, 0);
      Reached(k, ofs);
      var q, o := SplitOffset(fs.base, fs.ss, fs.csize, chain, k, ofs, sect);
      fptr := fptr + ofs;
      if fptr > objsize {
        objsize, modified := fptr, true;
      }
      if o != 0 {
        DataRun(k, q, 1);
        var nsect := ClusterSector(fs, clust);
        Fetch(nsect + q);
      }
    }

    lemma Reached(k: nat, ofs: nat)
      requires Stored() && OnCluster(k) && 0 < ofs <= fs.csize * fs.ss
      ensures fptr + ofs <= |bytes|
    {
      var u := fs.csize * fs.ss;
      MulMono(k + 1, |chain|, u);
      assert (k + 1) * u == k * u + u;
      assert |chain| * fs.csize * fs.ss == |chain| * u;
    }

    /** The cursor at the end of cluster number k, the last one. */
    lemma EndCursor(k: nat)
      requires Linked() && Chained() && Stored() && fs.ss > 0 && fs.csize > 0
      requires |chain| == k + 1 && clust == chain[k] && fptr == (k + 1) * (fs.csize * fs.ss)
      ensures Cursor() && fptr == |bytes|
    {
      var u := fs.csize * fs.ss;
      MulMono(1, fs.csize, fs.ss);
      assert (k + 1) * u == k * u + u;
      assert u % fs.ss == 0 by { WithinUnit(fs.csize, fs.ss, 0); }
      CursorInCluster(fs.base, fs.ss, fs.csize, chain, k, u, sect);
      RoomAtStart(fs.ss, fs.csize, |chain|, k + 1);
    }

    /** What seeking to ofs may do to a file of n bytes when all goes well. */
    ghost predicate Sought(n: nat, ofs: nat)
      reads this`fptr, this`objsize, this`bytes, fs`freeClst, fs`fat
    {
      if ofs <= n then fptr == ofs && objsize == n
      else n <= objsize == fptr <= ofs && (fptr < ofs ==> Full() && fptr == |bytes|)
    }

    /** f_lseek along the FAT. */
    method SeekNormal(ofs: nat)
      requires Valid() && err == FR_OK && ofs <= DWORD_MAX && (!canWrite ==> ofs <= objsize)
      modifies this`fptr, this`objsize, this`modified, this`clust, this`sect, this`dirty, this`sclust, this`err,
               this`img, this`chain, this`bytes, buf, fs, fs.win
      ensures Valid() && old(bytes) <= bytes && (dirty ==> old(dirty)) && (modified <==> old(modified) || objsize != old(objsize)) && DataAs(old(img))
      ensures ofs <= |old(bytes)| ==> chain == old(chain)
      ensures err == FR_OK ==> Sought(old(objsize), ofs)
      ensures err != FR_OK ==> err == FR_INT_ERR && Corrupt(fs.fat) && objsize == old(objsize) < ofs
      ensures old(Counted(fs.fat, fs.freeClst)) ==> Counted(fs.fat, fs.freeClst)
      ensures Grew(old(fs.fat), fs.fat, old(chain), chain) && fs.ss > 0 && fs.csize > 0
      ensures err == FR_OK ==> chain == old(chain) || |chain| == ClustersFor(fs.ss, fs.csize, fptr)
    {
      hide Valid, Shape, Cursor, Linked, Chained, Stored, Full, Corrupt, Counted, Grew, ClustersFor, OnCluster, DataAs, SameElsewhere;
      Sizes();
      AtCursor();
      ghost var v := img;
      Unchanged();
      ghost var f, ch := fs.fat, chain;
      GrewNot(f, ch);
      if ofs == 0 {
        ToStart(2);
        return;
      }
      var clst, rem; ghost var k;
      clst, rem, k := Begin(ofs);
      if clst < 2 {
        ToStart(clst);
        return;
      }
      ghost var g, dh, w := fs.fat, chain, img;
      DataSays(v);
      clst, rem, k := Walk(k, rem);
      DataThen(v, w);
      GrewMore(f, g, fs.fat, ch, dh, chain);
      GrewLonger(f, fs.fat, ch, chain);
      ShapeIs();
      Arrive(clst, rem, k, ofs);
      Sizes();
    }

    lemma AtCursor()
      requires Valid() && err == FR_OK
      ensures Cursor()
    {}

    lemma ShapeIs()
      requires Linked() && Chained() && Stored() && objsize <= |bytes| && objsize <= DWORD_MAX
      ensures Shape()
    {}

    /** The pointer goes to the start of the file, where it stays if there is no cluster. */
    method ToStart(clst: nat)
      requires Linked() && Chained() && Stored() && objsize <= |bytes| && objsize <= DWORD_MAX && err == FR_OK
      modifies this`fptr, this`err
      ensures Valid() && fptr == 0 && err == if clst == 1 then FR_INT_ERR else FR_OK
    {
      hide Linked, Chained, Stored;
      fptr := 0;
      if clst == 1 {
        err := FR_INT_ERR;
      }
      NoCursor(chain, clust, sect);
    }

    /** The end of f_lseek along the FAT: in the cluster reached, or at the end of the last one to be had. */
    method Arrive(clst: nat, rem: nat, ghost k: nat, ghost ofs: nat)
      requires Shape() && err == FR_OK && ofs <= DWORD_MAX && fs.ss > 0 && fs.csize > 0
      requires clst >= 2 ==> OnCluster(k) && 0 < rem <= fs.csize * fs.ss && fptr + rem == ofs
      requires clst < 2 ==> |chain| == k + 1 && clust == chain[k] && fptr == (k + 1) * (fs.csize * fs.ss) < ofs
      modifies this`fptr, this`objsize, this`modified, this`sect, this`dirty, this`err, buf, fs`disk
      ensures Valid() && (dirty ==> old(dirty)) && (modified <==> old(modified) || objsize != old(objsize))
      ensures err == if clst == 1 then FR_INT_ERR else FR_OK
      ensures objsize == if clst == 1 then old(objsize) else Max(old(objsize), fptr)
      ensures if clst >= 2 then fptr == ofs else fptr == |bytes| < ofs
      ensures ClustersFor(fs.ss, fs.csize, fptr) == k + 1
    {
      hide Linked, Chained, Stores, CursorAt, ClustersFor, Volume.Geometry;
      if clst >= 2 {
        Settle(k, rem);
      } else {
        EndCursor(k);
        if clst == 1 {
          err := FR_INT_ERR;
        } else if fptr > objsize {
          objsize, modified := fptr, true;
        }
      }
      LaidOut();
      GrownToPointer(k);
    }

    lemma NoCursor(c: seq<nat>, clst: nat, s: nat)
      ensures CursorAt(fs.base, fs.ss, fs.csize, c, 0, clst, s)
    {}

    /** A link map leads to the file's own clusters: it lists them, or nothing at all. */
    ghost predicate MapLeads()
      reads this`cltbl, this`chain, this`mapped
    {
      cltbl != [] ==> chain <= mapped || mapped == []
    }

    /**
    f_lseek by the link map. It fails exactly when the map was made of an empty file that has
    got a cluster since, and the position is not 0. When the file was cut to nothing and its
    first cluster is another one since, it ends up in the cluster that the map begins with.
    */
    method SeekFast(ofs: nat)
      requires Valid() && MapOk() && cltbl != [] && err == FR_OK
      modifies this`fptr, this`clust, this`sect, this`dirty, this`err, buf, fs`disk
      ensures Shape() && fptr == Min(ofs, objsize) && (dirty ==> old(dirty))
      ensures Valid() <==> fptr == 0 || MapLeads()
      ensures err == if fptr == 0 || mapped != [] then FR_OK else FR_INT_ERR
      ensures !Valid() ==> |chain| == 1 && clust == mapped[0] != chain[0]
    {
      hide Linked, Chained, Stores, PlaceOf, CursorAt, MapOk, Maps, MapLeads, Volume.Geometry;
      Units();
      fptr := Min(ofs, objsize);
      if fptr == 0 {
        NoCursor(chain, clust, sect);
        return;
      }
      var a := PlaceOf(fs.ss, fs.csize, fptr - 1);
      Allocated(img, fs.base, fs.csize, fs.ss, chain, bytes, fptr - 1);
      MapEntry(a.i);
      var dsc := LookUp(a.i, a.r);
      if dsc == 0 {
        err := FR_INT_ERR;
        return;
      }
      if a.o + 1 < fs.ss {  // fptr is not on a sector boundary
        Fetch(dsc + a.r);
      }
      CursorIff(a);
    }

    /** Enter cluster number i of the map: its first sector, or 0. Sector r of it could be read. */
    method LookUp(i: nat, ghost r: nat) returns (dsc: nat)
      requires Linked() && Chained() && Stored() && MapOk() && cltbl != [] && r < fs.csize
      modifies this`clust
      ensures dsc == 0 <==> |mapped| <= i
      ensures dsc != 0 ==>
                && clust == mapped[i] < |fs.base| && dsc == fs.base[clust]
                && fs.database <= dsc + r < fs.nSect && dsc + r != fs.winsect
    {
      hide Linked, Chained, Stored, Maps, Volume.Geometry;
      Units();
      if i < |mapped| {
        MapSector(i, 0);
        MapSector(i, r);
      }
      clust := ClusterFromMap(cltbl, i, mapped);
      dsc := ClusterSector(fs, clust);
    }

    /** What an entry of a link map says about a cluster of the file. */
    lemma MapEntry(i: nat)
      requires MapOk() && cltbl != [] && i < |chain|
      ensures Maps(cltbl, 1, mapped) && (i < |mapped| <==> mapped != [])
      ensures i < |mapped| ==> (mapped[i] == chain[i] <==> MapLeads())
      ensures i >= |mapped| ==> MapLeads()
      ensures !MapLeads() ==> i == 0 && |chain| == 1
    {
      hide Maps;
      if i < |mapped| && |chain| == 1 {
        assert chain <= mapped <==> chain[0] == mapped[0];
      }
    }

    /** A sector of a mapped cluster is a data sector and not under the window. */
    lemma MapSector(i: nat, r: nat)
      requires Linked() && Chained() && MapOk() && cltbl != [] && i < |mapped| && r < fs.csize
      ensures 2 <= mapped[i] < fs.nFatent == |fs.base|
      ensures fs.database <= fs.base[mapped[i]] + r < fs.nSect && fs.base[mapped[i]] + r != fs.winsect
    {
      hide Maps;
    }

    /** The cursor is right if its cluster is. */
    lemma CursorIff(a: Place)
      requires fptr > 0 && fs.ss > 0 && fs.csize > 0 && a == PlaceOf(fs.ss, fs.csize, fptr - 1) && a.i < |chain|
      requires clust < |fs.base| && (a.o + 1 < fs.ss ==> sect == fs.base[clust] + a.r)
      ensures Cursor() <==> clust == chain[a.i]
    {}

    /**
    f_lseek to a position. With a link map the greatest offset is no position but the request
    to make the map, which is the method MakeLinkMap.
    */
    method Seek(ofs: nat) returns (res: FResult)
      requires Valid() && MapOk() && ofs <= DWORD_MAX && (cltbl != [] ==> ofs != CREATE_LINKMAP)
      modifies this, buf, fs, fs.win
      ensures Shape() && (Valid() <==> old(err) != FR_OK || cltbl == [] || fptr == 0 || MapLeads())
      ensures !Valid() ==> |chain| == 1 && mapped != [] && clust == mapped[0] != chain[0]
      ensures MapOk() && cltbl == old(cltbl) && mapped == old(mapped) && res == err && (old(Flagged()) ==> Flagged())
      ensures modified <==> old(modified) || objsize != old(objsize)
      ensures EntryIs(old(entryClust), old(entrySize), old(noted)) && (old(Recorded()) ==> Recorded())
      ensures old(bytes) <= bytes && Grew(old(fs.fat), fs.fat, old(chain), chain) && DataAs(old(img))
      ensures old(err) != FR_OK ==> err == old(err) && objsize == old(objsize) && fptr == old(fptr) && chain == old(chain)
      ensures old(err) == FR_OK && cltbl != [] ==>
                && fptr == Min(ofs, objsize) && objsize == old(objsize) && chain == old(chain)
                && err == if fptr == 0 || mapped != [] then FR_OK else FR_INT_ERR
      ensures old(err) == FR_OK && cltbl == [] ==>
                if err == FR_OK then Sought(old(objsize), if canWrite then ofs else Min(ofs, old(objsize)))
                else err == FR_INT_ERR && old(Corrupt(fs.fat)) && objsize == old(objsize) < ofs && canWrite
      ensures fs.ss > 0 && fs.csize > 0
      ensures err == FR_OK ==> chain == old(chain) || |chain| == ClustersFor(fs.ss, fs.csize, fptr)
      ensures ofs <= |old(bytes)| || !canWrite ==> chain == old(chain)
      ensures old(Counted(fs.fat, fs.freeClst)) ==> Counted(fs.fat, fs.freeClst)
      ensures Corrupt(fs.fat) <==> old(Corrupt(fs.fat))
    {
      hide Linked, Chained, Stored, Cursor, Maps, Full, Corrupt, Counted, Grew, ClustersFor, DataAs;
      Units();
      Unchanged();
      ChainFits();
      GrewNot(fs.fat, chain);
      if err != FR_OK {
        return err;
      }
      StartIs();
      Room();
      ghost var f, c, n := fs.fat, chain, objsize;
      if cltbl != [] {
        SeekFast(ofs);
      } else {
        var o := ofs;
        if o > objsize && !canWrite {
          o := objsize;
        }
        SeekNormal(o);
      }
      GrewSound(f, fs.fat, c, chain);
      GrewLonger(f, fs.fat, c, chain);
      StartIs();
      LongerIsLonger(c, n);
      res := err;
    }

    lemma StartIs()
      requires Chained()
      ensures sclust == if chain == [] then 0 else chain[0]
    {}

    /** A file that has grown by a cluster up to the pointer has grown. */
    lemma LongerIsLonger(c: seq<nat>, n: nat)
      requires fs.ss > 0 && fs.csize > 0 && n <= |c| * fs.csize * fs.ss
      ensures |c| < |chain| == ClustersFor(fs.ss, fs.csize, fptr) ==> n < fptr
    {
      ClustersHold(fs.ss, fs.csize, fptr, |c|);
    }

    /** CREATE_LINKMAP on behalf of the file. */
    method FatMap(t: seq<nat>) returns (res: FResult, u: seq<nat>)
      requires Linked() && Chained() && Stored() && 0 < |t| && t[0] <= |t|
      modifies this`img, fs`disk, fs`wflag, fs`winsect, fs.win
      ensures Linked() && Chained() && Stored() && fs.fat == old(fs.fat)
      ensures |u| == |t| && forall i :: t[0] <= i < |t| && i > 0 ==> u[i] == t[i]
      ensures res == FR_INT_ERR <==> chain != [] && FalseLink(fs.fat, chain)
      ensures res == FR_OK ==> Maps(u, 1, chain)
      ensures res != FR_INT_ERR ==> u[0] == 2 * Fragments(chain) + 2
      ensures res != FR_INT_ERR ==> res == if 2 * Fragments(chain) + 2 <= t[0] then FR_OK else FR_NOT_ENOUGH_CORE
    {
      hide Maps, Fragments, FalseLink;
      ghost var v := fs.View();
      res, u := CreateLinkMap(fs, t, sclust, chain);
      Refresh(v);
    }

    /** The map will be one of the chain. */
    ghost method MapHere()
      requires Chained()
      modifies this`mapped
      ensures Chained() && mapped == chain
    {
      mapped := chain;
    }

    /** f_lseek with CREATE_LINKMAP: make a link map of the chain in the table t. */
    method MakeLinkMap(t: seq<nat>) returns (res: FResult)
      requires Valid() && 0 < |t| && t[0] <= |t|
      modifies this`cltbl, this`mapped, this`err, this`img, fs`disk, fs`wflag, fs`winsect, fs.win
      ensures Valid() && |cltbl| == |t| && fs.fat == old(fs.fat) && fs.freeClst == old(fs.freeClst)
      ensures old(err) != FR_OK ==> res == err == old(err)
      ensures chain != [] ==> IsChain(fs.fat, chain)
      ensures old(err) == FR_OK && chain != [] && FalseLink(fs.fat, chain) ==> res == err == FR_INT_ERR
      ensures old(err) == FR_OK && !(chain != [] && FalseLink(fs.fat, chain)) ==>
                && err == FR_OK && cltbl[0] == 2 * Fragments(chain) + 2
                && res == (if cltbl[0] <= t[0] then FR_OK else FR_NOT_ENOUGH_CORE)
      ensures res == FR_OK ==> Mapped() && MapOk()
      ensures old(Recorded()) ==> Recorded()
      ensures forall i :: t[0] <= i < |t| && i > 0 ==> cltbl[i] == t[i]
    {
      hide Linked, Chained, Stored, Cursor, Maps, Fragments, FalseLink, IsChain, Mapped, MapOk;
      cltbl := t;
      ChainFits();
      if err != FR_OK {
        return err;
      }
      MapHere();
      res, cltbl := FatMap(t);
      if res == FR_INT_ERR {
        err := res;
      }
      if res == FR_OK {
        FreshMap();
      }
    }

    lemma FreshMap()
      requires Linked() && Chained() && Maps(cltbl, 1, mapped) && mapped == chain
      ensures Mapped() && MapOk()
    {
      LaidOut();
    }

    // ---- Truncating ------------------------------------------------------------------------

    /** remove_chain on behalf of the file, seen as a change of the FAT. */
    method FatRemove(c: nat, p: nat) returns (res: FResult)
      requires Linked() && Stored() && 2 <= c < fs.nFatent && (p == 0 || 2 <= p < fs.nFatent)
      modifies this`img, fs, fs.win
      ensures Linked() && Stored() && DataAs(old(img))
      ensures c < |old(fs.fat)| == fs.nFatent == |fs.fat|
      ensures RemoveFrom(old(fs.fat), c, p, Eoc(fs.fsType)) == Removal(fs.fat, res == FR_OK)
      ensures old(Counted(fs.fat, fs.freeClst)) && (p != 0 ==> old(fs.fat)[p] != 0) ==> Counted(fs.fat, fs.freeClst)
      ensures fs.winsect < fs.database || fs.winsect == old(fs.winsect)
    {
      ghost var v := fs.View();
      res := RemoveChain(fs, c, p);
      Refresh(v);
    }

    /** The chain keeps its first n clusters. */
    ghost method Shorten(n: nat)
      requires Stored() && n <= |chain|
      modifies this`chain, this`bytes
      ensures chain == old(chain)[..n] && Stored() && n * fs.csize * fs.ss <= |old(bytes)|
      ensures bytes == old(bytes)[..n * fs.csize * fs.ss]
    {
      StoresShorter(img, fs.ss, fs.base, fs.csize, chain, bytes, n);
      bytes := bytes[..n * fs.csize * fs.ss];
      chain := chain[..n];
    }

    /** Free the clusters behind the first n ones of the chain, n > 0. */
    method CutTail(ghost n: nat) returns (res: FResult)
      requires Linked() && Chained() && Stored() && 0 < n <= |chain| && clust == chain[n - 1]
      modifies this`img, this`chain, this`bytes, fs, fs.win
      ensures Linked() && Chained() && Stored() && res == FR_OK && DataAs(old(img))
      ensures chain == old(chain)[..n] && n * fs.csize * fs.ss <= |old(bytes)| && bytes == old(bytes)[..n * fs.csize * fs.ss]
      ensures old(Counted(fs.fat, fs.freeClst)) ==> Counted(fs.fat, fs.freeClst)
      ensures Grew(fs.fat, old(fs.fat), chain, old(chain))
    {
      hide Linked, Stores, Counted, Removed, Grew, Zeroed, DataAs, Volume.Geometry;
      ghost var f, v := fs.fat, img;
      assert n == |chain| ==> chain[..n] == chain;
      GrewNot(f, chain);
      LaidOut();
      DataRun(n - 1, 0, 0);
      Units();
      assert f[chain[n - 1]] == if n == |chain| then f[chain[|chain| - 1]] else chain[n];
      var ncl := FatNext(clust);
      ghost var w := img;
      DataSays(v);
      res := FR_OK;
      if ncl < fs.nFatent {
        EndMark(fs);
        RemovedSuffix(f, chain, n, Eoc(fs.fsType));
        CutUndoesGrowth(f, chain, n, Eoc(fs.fsType));
        res := FatRemove(ncl, clust);
        DataThen(v, w);
      }
      Shorten(n);
    }

    /** Free the whole chain. */
    method CutAll() returns (res: FResult)
      requires Linked() && Chained() && Stored() && chain != []
      modifies this`img, this`chain, this`bytes, this`sclust, fs, fs.win
      ensures Linked() && Chained() && Stored() && res == FR_OK && DataAs(old(img))
      ensures chain == [] && bytes == []
      ensures old(Counted(fs.fat, fs.freeClst)) ==> Counted(fs.fat, fs.freeClst)
      ensures Grew(fs.fat, old(fs.fat), chain, old(chain))
    {
      hide Linked, Stores, Counted, Removed, Grew, Zeroed, DataAs, Volume.Geometry;
      LaidOut();
      DataRun(0, 0, 0);
      RemovedChain(fs.fat, chain);
      DropUndoesGrowth(fs.fat, chain);
      res := FatRemove(sclust, 0);
      sclust := 0;
      Shorten(0);
    }

    lemma ChainFits()
      requires Chained()
      ensures chain != [] ==> IsChain(fs.fat, chain)
    {}

    /** The cluster of the byte before fptr, counted from 1, and the bytes up to it. */
    lemma KeptClusters() returns (n: nat)
      requires Stored() && Cursor() && 0 < fptr <= |bytes|
      ensures 0 < n <= |chain| && clust == chain[n - 1] && fs.ss > 0 && fs.csize > 0 && n == ClustersFor(fs.ss, fs.csize, fptr)
      ensures fptr <= n * fs.csize * fs.ss
      ensures CursorAt(fs.base, fs.ss, fs.csize, chain[..n], fptr, clust, sect)
    {
      n := PlaceOf(fs.ss, fs.csize, fptr - 1).i + 1;
      PlaceRoom(fs.ss, fs.csize, n, fptr - 1);
    }

    /** What f_truncate leaves alone: the call is refused, or the pointer is at the end of the file. */
    ghost predicate NothingToCut()
      reads this`err, this`fptr, this`objsize
    {
      err != FR_OK || !canWrite || fptr >= objsize
    }

    /**
    f_truncate: the file ends at fptr; exactly the clusters it does not need are freed. A link
    map still fits the file if and only if no cluster is freed: nothing is cut, or the pointer
    is in the last cluster.
    */
    method Truncate() returns (res: FResult)
      requires Valid() && MapOk()
      modifies this, buf, fs, fs.win
      ensures Valid() && MapOk() && cltbl == old(cltbl) && mapped == old(mapped) && err == old(err) && fptr == old(fptr)
      ensures sect == old(sect) && (dirty ==> old(dirty)) && (old(Flagged()) ==> Flagged())
      ensures modified == if old(NothingToCut()) then old(modified) else true
      ensures EntryIs(old(entryClust), old(entrySize), old(noted)) && (old(Recorded()) ==> Recorded())
      ensures res == if err != FR_OK then err else if canWrite then FR_OK else FR_DENIED
      ensures objsize <= |bytes| && old(objsize) <= |old(bytes)|
      ensures res == FR_OK ==> fptr <= old(objsize) && Content() == old(Content())[..fptr]
      ensures res != FR_OK ==> Content() == old(Content())
      ensures fs.ss > 0 && fs.csize > 0 && Grew(fs.fat, old(fs.fat), chain, old(chain)) && DataAs(old(img))
      ensures if old(NothingToCut()) then chain == old(chain) else chain <= old(chain) && |chain| == ClustersFor(fs.ss, fs.csize, fptr)
      ensures old(Mapped()) ==>
                (Mapped() <==>
                   || cltbl == [] || old(NothingToCut())
                   || (fptr > 0 && old(chain) != [] && old(clust) == old(chain)[|old(chain)| - 1]))
      ensures old(MapLeads()) ==> MapLeads()
      ensures old(Counted(fs.fat, fs.freeClst)) ==> Counted(fs.fat, fs.freeClst)
      ensures Corrupt(fs.fat) <==> old(Corrupt(fs.fat))
    {
      hide Valid, Maps, Counted, Corrupt, Grew, ClustersFor, Linked, Chained, Stored, DataAs;
      Sizes();
      Unchanged();
      GrewNot(fs.fat, chain);
      if err != FR_OK {
        return err;
      }
      if !canWrite {
        return FR_DENIED;
      }
      res := FR_OK;
      if fptr < objsize {
        ghost var f, c := fs.fat, chain;
        CutHere();
        GrewSound(fs.fat, f, chain, c);
      }
      Sizes();
    }

    /** Free what the bytes up to the pointer do not need, and end the file there. */
    method CutHere()
      requires Valid() && err == FR_OK && fptr < objsize
      modifies this`img, this`chain, this`bytes, this`sclust, this`objsize, this`modified, this`dirty, fs, fs.win
      ensures Valid() && !dirty && modified && objsize == fptr && bytes <= old(bytes) && DataAs(old(img))
      ensures chain <= old(chain) && old(chain) != [] && fs.ss > 0 && fs.csize > 0 && |chain| == ClustersFor(fs.ss, fs.csize, fptr)
      ensures chain == old(chain) <==> fptr > 0 && clust == old(chain)[|old(chain)| - 1]
      ensures Grew(fs.fat, old(fs.fat), chain, old(chain))
      ensures old(Counted(fs.fat, fs.freeClst)) ==> Counted(fs.fat, fs.freeClst)
    {
      hide Linked, Chained, Stored, CursorAt, Counted, Grew, ClustersFor, DataAs;
      CutAtPointer();
      objsize, modified := fptr, true;
      Flush();
    }

    /** Free the clusters f_truncate does not keep. */
    method CutAtPointer()
      requires Linked() && Chained() && Stored() && Cursor() && fptr < objsize <= |bytes|
      modifies this`img, this`chain, this`bytes, this`sclust, fs, fs.win
      ensures Linked() && Chained() && Stored() && Cursor() && DataAs(old(img))
      ensures chain <= old(chain) && fptr <= |bytes| && bytes <= old(bytes)
      ensures old(chain) != [] && fs.ss > 0 && fs.csize > 0 && |chain| == ClustersFor(fs.ss, fs.csize, fptr)
      ensures chain == old(chain) <==> fptr > 0 && clust == old(chain)[|old(chain)| - 1]
      ensures Grew(fs.fat, old(fs.fat), chain, old(chain))
      ensures old(Counted(fs.fat, fs.freeClst)) ==> Counted(fs.fat, fs.freeClst)
    {
      hide Linked, Stores, CursorAt, Counted, Grew, PlaceOf, DataAs, Volume.Geometry;
      Room();
      Units();
      NoBytes();
      ChainDistinct(fs.fat, chain);
      var res;
      if fptr == 0 {
        res := CutAll();
        NoCursor(chain, clust, sect);
      } else {
        ghost var n := KeptClusters();
        res := CutTail(n);
      }
    }

    /** Without a dirty buffer the volume holds the bytes of the file. */
    ghost predicate OnVolume()
      reads this`dirty, this`bytes, this`chain, fs, fs.win
    {
      && fs.Valid() && fs.ss > 0 && fs.csize > 0
      && (!dirty ==> bytes == BytesOf(fs.View(), fs.ss, fs.base, fs.csize, chain))
    }

    /**
    f_sync: if a change is noted the buffer is written back and the directory entry written
    anew. f_write notes a change at its end, which an internal error keeps it from reaching.
    */
    method Sync()
      requires Valid()
      modifies this`dirty, this`modified, this`entryClust, this`entrySize, this`noted, fs`disk
      ensures Valid() && (old(Flagged()) ==> Flagged())
      ensures !modified && (old(modified) ==> !dirty)
      ensures if old(modified) then EntryIs(sclust, objsize, Content())
              else dirty == old(dirty) && fs.disk == old(fs.disk) && EntryIs(old(entryClust), old(entrySize), old(noted))
      ensures old(Recorded()) ==> Recorded()
      ensures OnVolume() && (old(Flagged()) && err == FR_OK ==> !dirty)
    {
      hide Linked, Chained, Stored, Cursor, OnVolume;
      if modified {
        Flush();
        entryClust, entrySize, noted := sclust, objsize, Content();
        modified := false;
      }
      CleanView();
    }

    lemma CleanView()
      requires Linked() && Stored()
      ensures OnVolume()
    {}

    /** Byte p of the file is byte o of sector r of cluster number i of the chain. */
    lemma ByteOnDisk(i: nat, r: nat, o: nat, p: nat, s: int)
      requires Valid() && i < |chain| && r < fs.csize && o < fs.ss
      requires p == (i * fs.csize + r) * fs.ss + o && s == fs.database + fs.csize * (chain[i] - 2) + r
      ensures 0 <= s < |img| && o < |img[s]| && p < |bytes| && bytes[p] == img[s][o]
    {
      hide Linked, Chained, Laid, Stores, Volume.Geometry;
      Units();
      LaidOut();
      DataRun(i, r, 1);
      BaseOfCluster(fs, chain[i]);
      ByteStored(img, fs.ss, fs.base, fs.csize, chain, bytes, i, r, o);
    }
  }
}
