/**
Concrete volumes and files that show where the file layer does not do what one would expect:
link maps that are out of date, and a buffer that f_sync does not write back.
*/
module FatWitness {
  import opened Sectors
  import opened FatTable
  import opened FatChain
  import opened FatVolume
  import opened FatAllocator
  import opened FatLinkMap
  import opened FatFile
  import opened FileLayout

  /** A FAT of four 16-bit entries. */
  function TinyFat(a: nat, b: nat): (s: Sector)
    ensures |s| == 512
  {
    Store16(Store16(Store16(Store16(seq(512, i => 0), 0, 0xFFF8), 2, 0xFFFF), 4, a), 6, b)
  }

  lemma TinyEntries(a: nat, b: nat)
    requires a < 0x1_0000 && b < 0x1_0000
    ensures Encodes(FAT16, [TinyFat(a, b)], 4, [0xFFF8, 0xFFFF, a, b])
  {
    var s := TinyFat(a, b);
    var none: seq<Sector> := [];
    assert [s][1..] == none && Flat(none) == [] && Flat([s]) == s;
    var f := Entries(FAT16, s, 4);
    assert f == [0xFFF8, 0xFFFF, a, b] by {
      assert f[0] == 0xFFF8 && f[1] == 0xFFFF && f[2] == a && f[3] == b;
    }
  }

  /** A FAT16 volume of two clusters of one sector, with the entries a and b. */
  method TinyVolume(a: nat, b: nat) returns (fs: Volume)
    requires a < 0x1_0000 && b < 0x1_0000
    ensures fresh(fs) && fresh(fs.win) && fs.Valid() && fs.fat == [0xFFF8, 0xFFFF, a, b]
    ensures fs.ss == 512 && fs.csize == 1 && fs.nFatent == 4 && fs.database == 2
    ensures fs.winsect == 0 && fs.freeClst == DWORD_MAX && fs.fsType == FAT16
  {
    hide TinyFat, Encodes, Based;
    TinyEntries(a, b);
    var blank: Sector := seq(512, i => 0);
    var disk := [blank, TinyFat(a, b), blank, blank];
    ghost var base := ClusterBases(FAT16, 512, 1, 4, 1, 2, 4);
    assert disk[1..2] == [TinyFat(a, b)];
    fs := new Volume.Mounted(FAT16, 512, 1, 1, 4, 1, 1, 2, disk, 0, DWORD_MAX, DWORD_MAX, base, [0xFFF8, 0xFFFF, a, b]);
  }

  lemma TinySound(a: nat, b: nat)
    ensures a != 1 && b != 1 ==> !Corrupt([0xFFF8, 0xFFFF, a, b])
    ensures a == 1 || b == 1 ==> Corrupt([0xFFF8, 0xFFFF, a, b])
    ensures a == 0 || b == 0 ==> !NoFree([0xFFF8, 0xFFFF, a, b])
    ensures a != 0 && b != 0 ==> NoFree([0xFFF8, 0xFFFF, a, b])
  {
    var f := [0xFFF8, 0xFFFF, a, b];
    assert f[2] == a && f[3] == b;
  }

  /**
  A link map of an empty file: the first write gives the file a cluster that the map does not
  know, and f_lseek to the byte just written fails.
  */
  method SeekByEmptyMap() returns (made: FResult, wrote: FResult, n: nat, sought: FResult)
    ensures made == FR_OK && wrote == FR_OK && n == 1 && sought == FR_INT_ERR
  {
    hide File.Linked, File.Chained, File.Stored, Grew, Splice, ClustersFor, Corrupt, NoFree;
    var fs := TinyVolume(0, 0);
    TinySound(0, 0);
    var f := new File.Open(fs, 0, 0, true, true, []);
    made := f.MakeLinkMap([2, 0]);
    wrote, n := f.Write([7]);
    OneByte(n);
    sought := f.Seek(1);
  }

  lemma OneByte(n: nat)
    requires n <= 1
    ensures |Splice([], 0, [7][..n])| == n
  {}

  /** Two clusters in a row make one fragment. */
  lemma OneFragment()
    ensures Fragments([2, 3]) == 1
  {
    var c := [2, 3];
    assert c[2..] == [];
    assert FirstRun(c) == 2;
  }

  /** A file of two clusters with a link map, cut down to its first byte. */
  method CutMapped() returns (made: FResult, cut: FResult, f: File)
    ensures made == FR_OK && cut == FR_OK && fresh(f) && fresh(f.fs) && fresh(f.fs.win) && fresh(f.buf)
    ensures f.Valid() && f.MapOk() && f.Writable() && f.fptr == 1 && f.fs.ss == 512 && f.fs.csize == 1
    ensures f.chain == [2] && f.cltbl != [] && f.mapped == [2, 3] && |f.fs.fat| == 4 && f.fs.fat[3] == 0
  {
    hide File.Linked, File.Chained, File.Stored, PlaceOf, Corrupt, NoFree, Fragments, Free;
    var fs := TinyVolume(3, 0xFFFF);
    assert IsChain(fs.fat, [2, 3]);
    f := new File.Open(fs, 2, 1024, true, true, [2, 3]);
    OneFragment();
    made := f.MakeLinkMap([4, 0, 0, 0]);
    var res := f.Seek(1);
    cut := f.Truncate();
    FirstByte();
  }

  /**
  Writing 512 bytes to it fills the first cluster and goes on to cluster 3, which the map still
  names: f_write reports success, and the last byte is in a free cluster.
  */
  method StrayWrite() returns (made: FResult, cut: FResult, wrote: FResult, n: nat, f: File)
    ensures made == FR_OK && cut == FR_OK && wrote == FR_OK && n == 512
    ensures !f.Valid() && f.objsize == 513 && f.clust == 3 && |f.fs.fat| == 4 && f.fs.fat[3] == 0 && IsChain(f.fs.fat, [2])
  {
    hide File.Valid, File.Linked, File.Stored, File.MapOk, File.DataAs, SameElsewhere, Corrupt, NoFree, Free, Splice;
    made, cut, f := CutMapped();
    wrote, n := f.Write(seq(512, i => 0));
    SecondCluster();
  }

  lemma SecondCluster()
    ensures PlaceOf(512, 1, 512) == Place(1, 0, 0)
  {}

  /** A file of one byte in cluster 2 with a link map, cut to nothing, on a volume whose other cluster is in use. */
  method EmptiedMapped() returns (made: FResult, cut: FResult, f: File)
    ensures made == FR_OK && cut == FR_OK && fresh(f) && fresh(f.fs) && fresh(f.fs.win) && fresh(f.buf)
    ensures f.Valid() && f.MapOk() && f.Writable() && f.fptr == 0 && f.sect == 0 && !f.dirty
    ensures f.chain == [] && f.cltbl != [] && f.mapped == [2] && f.fs.fat == [0xFFF8, 0xFFFF, 0, 0xFFFF]
    ensures f.fs.fsType == FAT16 && Counted(f.fs.fat, f.fs.freeClst)
  {
    hide File.Valid, File.MapOk, File.Linked, File.Chained, File.Stored, File.DataAs, File.Recorded, File.EntryIs, File.Flagged,
         Maps, PlaceOf, ClustersFor, Corrupt, NoFree, Fragments, Free;
    var fs := TinyVolume(0xFFFF, 0xFFFF);
    assert IsChain(fs.fat, [2]);
    f := new File.Open(fs, 2, 1, true, true, [2]);
    OneOfOne();
    made := f.MakeLinkMap([4, 0, 0, 0]);
    cut := f.Truncate();
    NoClusters();
  }

  lemma OneOfOne()
    ensures Fragments([2]) == 1
  {
    assert [2][1..] == [];
  }

  lemma NoClusters()
    ensures ClustersFor(512, 1, 0) == 0
  {}

  /** Other files take the cluster that is free, and free the other one. */
  method Exchange(fs: Volume)
    requires fs.Valid() && fs.fat == [0xFFF8, 0xFFFF, 0, 0xFFFF] && fs.fsType == FAT16 && Counted(fs.fat, fs.freeClst)
    modifies fs, fs.win
    ensures fs.Valid() && fs.fat == [0xFFF8, 0xFFFF, 0xFFFF, 0] && fs.Outside() == old(fs.Outside()) && Counted(fs.fat, fs.freeClst)
    ensures fs.InFirstFat(fs.winsect) || fs.winsect == old(fs.winsect)
  {
    hide Volume.Outside;
    TinySound(0, 0xFFFF);
    assert 2 in Free(fs.fat);
    var r := CreateChain(fs, 0);
    ghost var g: seq<nat> := [0xFFF8, 0xFFFF, 0xFFFF, 0xFFFF];
    assert r == 2 && fs.fat == g;
    assert g[3 := 0] == [0xFFF8, 0xFFFF, 0xFFFF, 0];
    assert Removed(g, 3) == Removal(g[3 := 0], true);
    var res := RemoveChain(fs, 3, 0);
  }

  /** Meanwhile the file has no cluster, and nothing in its buffer. */
  method Meanwhile(f: File)
    requires f.Valid() && f.MapOk() && f.chain == [] && f.sect == 0 && !f.dirty
    requires f.fs.fat == [0xFFF8, 0xFFFF, 0, 0xFFFF] && f.fs.fsType == FAT16 && Counted(f.fs.fat, f.fs.freeClst)
    modifies f`img, f.fs, f.fs.win
    ensures f.Valid() && f.MapOk() && f.fs.fat == [0xFFF8, 0xFFFF, 0xFFFF, 0] && Counted(f.fs.fat, f.fs.freeClst)
  {
    hide Volume.Outside, Encodes, Counted, Maps;
    ghost var v := f.fs.View();
    OutsideIs(f.fs, v);
    Exchange(f.fs);
    f.Refresh(v);
  }

  lemma OutsideIs(fs: Volume, v: seq<Sector>)
    requires fs.Valid() && v == fs.View()
    ensures v[..fs.fatbase] + v[fs.FatEnd()..] == fs.Outside()
  {}

  lemma OnlyOne(f: seq<nat>, g: seq<nat>, d: seq<nat>)
    requires f == [0xFFF8, 0xFFFF, 0xFFFF, 0] && Grew(f, g, [], d)
    ensures |d| == 1 ==> d == [3] && IsChain(g, [3])
  {
    GrewMembers(f, g, [], d);
    if |d| == 1 {
      assert d[0] in d;
    }
  }

  lemma FirstCluster(f: File)
    requires f.Shape()
    ensures f.chain != [] ==> f.sclust == f.chain[0] && IsChain(f.fs.fat, f.chain)
  {}

  /**
  The file is written anew and gets the other cluster. Seeking to the end of its one byte leads
  to cluster 2, which the map names and another file owns now.
  */
  method StraySeek() returns (made: FResult, cut: FResult, wrote: FResult, n: nat, sought: FResult, f: File)
    ensures made == FR_OK && cut == FR_OK && wrote == FR_OK && n == 1 && sought == FR_OK
    ensures !f.Valid() && f.fptr == 1 && f.clust == 2 && f.chain == [3] && IsChain(f.fs.fat, [3]) && f.sclust == 3
  {
    hide File.Valid, File.Shape, File.Linked, File.Chained, File.Stored, File.DataAs, File.OthersAs, File.MapOk, File.Astray, Maps,
         Grew, ClustersFor, Splice, Corrupt, NoFree, Counted;
    made, cut, f := EmptiedMapped();
    Meanwhile(f);
    TinySound(0xFFFF, 0);
    ghost var fat := f.fs.fat;
    wrote, n := f.Write([7]);
    OnlyOne(fat, f.fs.fat, f.chain);
    OneByte(n);
    f.Sizes();
    sought := f.Seek(1);
    FirstCluster(f);
  }

  lemma FirstByte()
    ensures ClustersFor(512, 1, 1) == 1
  {}

  /**
  Two bytes are written at the last byte that a file's clusters hold, where no cluster is free
  and some entry is 1: the first one goes to the buffer, and the second one needs a cluster,
  which ends in an internal error. The change is not noted, and f_sync leaves the buffer.
  */
  method AbortedWrite(f: File) returns (wrote: FResult, n: nat)
    requires f.Valid() && f.MapOk() && f.cltbl == [] && f.err == FR_OK && f.canWrite && !f.modified
    requires f.fptr + 1 == |f.bytes| < DWORD_MAX && f.fs.ss > 2
    requires NoFree(f.fs.fat) && Corrupt(f.fs.fat) && f.fs.freeClst != 0
    modifies f, f.buf, f.fs, f.fs.win
    ensures wrote == FR_INT_ERR && n == 1 && f.dirty && !f.modified
  {
    hide File.Valid, File.Linked, File.Chained, File.Stored, ChainOrNone, File.OthersAs, ClustersFor, Corrupt, NoFree, Splice, Grew;
    ghost var fat, c := f.fs.fat, f.chain;
    f.Sizes();
    f.Room();
    wrote, n := f.Write([1, 2]);
    NoGrowth(fat, f.fs.fat, c, f.chain);
    f.Sizes();
    f.Room();
    f.Sync();
  }

  /** A file of one cluster, on a volume whose other cluster has the entry 1. */
  method BesideOne() returns (f: File)
    ensures fresh(f) && fresh(f.fs) && fresh(f.fs.win) && fresh(f.buf)
    ensures f.Valid() && f.MapOk() && f.cltbl == [] && f.err == FR_OK && f.canRead && f.canWrite && !f.modified
    ensures f.fptr == 0 && f.objsize == 511 && f.fs.ss == 512 && |f.bytes| == 512
    ensures NoFree(f.fs.fat) && Corrupt(f.fs.fat) && f.fs.freeClst != 0
  {
    hide File.Valid, File.Linked, File.Chained, File.Stored, Corrupt, NoFree;
    var fs := TinyVolume(0xFFFF, 1);
    TinySound(0xFFFF, 1);
    assert IsChain(fs.fat, [2]);
    f := new File.Open(fs, 2, 511, true, true, [2]);
    f.Sizes();
    f.Room();
  }

  /** Such a file, read up to the last byte of its cluster. */
  method UnnotedBuffer() returns (wrote: FResult, n: nat, f: File)
    ensures wrote == FR_INT_ERR && n == 1 && f.dirty && !f.modified
  {
    hide File.Valid, File.Linked, File.Chained, File.Stored, File.DataAs, File.MapOk, Corrupt, NoFree;
    f := BesideOne();
    var res, got := f.Read(511);
    wrote, n := AbortedWrite(f);
  }

  /** Where no cluster is free no chain grows. */
  lemma NoGrowth(f: seq<nat>, g: seq<nat>, c: seq<nat>, d: seq<nat>)
    requires Grew(f, g, c, d)
    ensures NoFree(f) ==> d == c
  {
    GrewMembers(f, g, c, d);
    if |d| > |c| {
      assert d[|c|] in d;
    }
  }
}
