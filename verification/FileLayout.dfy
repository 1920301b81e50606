/**
How the bytes of a file lie on the disk: the clusters of its chain, laid end to end, cut
into sectors. All lemmas are about values; FatFile uses them for the file object.
*/
module FileLayout {
  import opened Sectors

  /** s with the elements from p on overwritten by d; it grows when d reaches past the end. */
  function Splice<T>(s: seq<T>, p: nat, d: seq<T>): seq<T>
    requires p <= |s|
  {
    s[..p] + d + if p + |d| <= |s| then s[p + |d|..] else []
  }

  lemma SpliceTwice<T>(s: seq<T>, p: nat, d: seq<T>, e: seq<T>)
    requires p <= |s|
    ensures p + |d| <= |Splice(s, p, d)|
    ensures Splice(Splice(s, p, d), p + |d|, e) == Splice(s, p, d + e)
  {}

  /** Overwriting a long sequence and keeping a prefix is overwriting the prefix. */
  lemma SplicePrefix<T>(s: seq<T>, n: nat, p: nat, d: seq<T>)
    requires p <= n <= |s| && p + |d| <= |s|
    ensures |Splice(s, p, d)| == |s|
    ensures var m := if n < p + |d| then p + |d| else n;
            Splice(s, p, d)[..m] == Splice(s[..n], p, d)
  {}

  /** What a splice leaves alone. */
  lemma SpliceOutside<T>(s: seq<T>, p: nat, d: seq<T>, a: nat, b: nat, w: nat, x: T)
    requires p + |d| <= |s| && a <= b <= p && w < |s| && !(p <= w < p + |d|)
    ensures |Splice(s, p, d)| == |s| && Splice(s, p, d)[w] == s[w]
    ensures Splice(s, p, d)[a..b] == s[a..b]
    ensures Splice(s, p, d)[w := x] == Splice(s[w := x], p, d)
  {}

  // ---- Clusters ----------------------------------------------------------------------

  /**
  base[c] is the first sector of cluster c. The clusters take cs sectors each, lie between
  sectors lo and hi, and do not overlap.
  */
  ghost predicate Placed(base: seq<nat>, cs: nat, lo: nat, hi: nat) {
    && (forall c :: 2 <= c < |base| ==> lo <= base[c] && base[c] + cs <= hi)
    && Spread(base, cs)
  }

  ghost predicate Spread(base: seq<nat>, cs: nat) {
    forall c, d :: 2 <= c < d < |base| ==> base[c] + cs <= base[d]
  }

  /** The clusters of a chain lie on the disk. */
  ghost predicate OnDisk(hi: nat, base: seq<nat>, cs: nat, chain: seq<nat>) {
    forall i :: 0 <= i < |chain| ==> 2 <= chain[i] < |base| && base[chain[i]] + cs <= hi
  }

  ghost predicate NoRepeat(chain: seq<nat>) {
    forall i, j :: 0 <= i < j < |chain| ==> chain[i] != chain[j]
  }

  ghost predicate InCluster(base: seq<nat>, cs: nat, c: nat, s: int) {
    2 <= c < |base| && base[c] <= s < base[c] + cs
  }

  // ---- Byte positions ----------------------------------------------------------------

  /** Place of a byte: cluster number in the chain, sector in the cluster, offset in the sector. */
  datatype Place = Place(i: nat, r: nat, o: nat)

  function PlaceOf(ss: nat, cs: nat, p: nat): (a: Place)
    requires ss > 0 && cs > 0
    ensures a.r < cs && a.o < ss
  {
    Place(p / ss / cs, p / ss % cs, p % ss)
  }

  /** The place of the next byte. */
  function Next(ss: nat, cs: nat, a: Place): Place {
    if a.o + 1 < ss then Place(a.i, a.r, a.o + 1)
    else if a.r + 1 < cs then Place(a.i, a.r + 1, 0)
    else Place(a.i + 1, 0, 0)
  }

  /** A position in terms of its place. */
  lemma PlaceValue(ss: nat, cs: nat, p: nat)
    requires ss > 0 && cs > 0
    ensures var a := PlaceOf(ss, cs, p); p == (a.i * cs + a.r) * ss + a.o
  {
    DivMod(p, ss);
    DivMod(p / ss, cs);
  }

  lemma PlaceUnique(ss: nat, cs: nat, i: nat, r: nat, o: nat)
    requires r < cs && o < ss
    ensures PlaceOf(ss, cs, (i * cs + r) * ss + o) == Place(i, r, o)
  {
    WithinUnit(i * cs + r, ss, o);
    WithinUnit(i, cs, r);
  }

  /** The place of a byte j further on, in a run of whole sectors of one cluster. */
  lemma PlaceRun(ss: nat, cs: nat, p: nat, j: nat)
    requires ss > 0 && cs > 0 && PlaceOf(ss, cs, p).o == 0 && PlaceOf(ss, cs, p).r + j / ss < cs
    ensures var a := PlaceOf(ss, cs, p); PlaceOf(ss, cs, p + j) == Place(a.i, a.r + j / ss, j % ss)
  {
    var a := PlaceOf(ss, cs, p);
    PlaceValue(ss, cs, p);
    var k, q, t := a.i * cs + a.r, j / ss, j % ss;
    DivMod(j, ss);
    hide PlaceOf;
    PlaceUnique(ss, cs, a.i, a.r + q, t);
    assert (a.i * cs + (a.r + q)) * ss == k * ss + q * ss;
  }

  /** Conversely, a place among those sectors belongs to the run. */
  lemma PlaceBack(ss: nat, cs: nat, p: nat, n: nat, x: nat)
    requires ss > 0 && cs > 0 && PlaceOf(ss, cs, p).o == 0
    requires PlaceOf(ss, cs, x).i == PlaceOf(ss, cs, p).i
    requires PlaceOf(ss, cs, p).r <= PlaceOf(ss, cs, x).r < PlaceOf(ss, cs, p).r + n
    ensures p <= x < p + n * ss
  {
    var a, b := PlaceOf(ss, cs, p), PlaceOf(ss, cs, x);
    PlaceValue(ss, cs, p);
    PlaceValue(ss, cs, x);
    hide PlaceOf;
    var k, m := a.i * cs, b.r - a.r;
    assert (k + a.r + m) * ss == (k + a.r) * ss + m * ss;
    MulMono(m + 1, n, ss);
    assert (m + 1) * ss == m * ss + ss;
  }

  lemma PlaceNext(ss: nat, cs: nat, p: nat)
    requires ss > 0 && cs > 0
    ensures PlaceOf(ss, cs, p + 1) == Next(ss, cs, PlaceOf(ss, cs, p))
  {
    var a := PlaceOf(ss, cs, p);
    var b := Next(ss, cs, a);
    PlaceValue(ss, cs, p);
    PlaceUnique(ss, cs, b.i, b.r, b.o);
    hide PlaceOf;
    assert (a.i * cs + a.r + 1) * ss == (a.i * cs + a.r) * ss + ss;
    assert (a.i + 1) * cs == a.i * cs + cs;
  }

  /** Further on in the same sector. */
  lemma PlaceStep(ss: nat, cs: nat, p: nat, n: nat)
    requires ss > 0 && cs > 0 && PlaceOf(ss, cs, p).o + n < ss
    ensures var a := PlaceOf(ss, cs, p); PlaceOf(ss, cs, p + n) == Place(a.i, a.r, a.o + n)
  {
    Following(p, ss, n);
  }

  /** Back in the same sector. */
  lemma PlaceBefore(ss: nat, cs: nat, p: nat, n: nat)
    requires ss > 0 && cs > 0 && n <= PlaceOf(ss, cs, p).o
    ensures n <= p
    ensures var a := PlaceOf(ss, cs, p); PlaceOf(ss, cs, p - n) == Place(a.i, a.r, a.o - n)
  {
    var a := PlaceOf(ss, cs, p);
    PlaceValue(ss, cs, p);
    PlaceUnique(ss, cs, a.i, a.r, a.o - n);
  }

  /** n clusters have room for byte p exactly when its cluster number is below n. */
  lemma PlaceRoom(ss: nat, cs: nat, n: nat, p: nat)
    requires ss > 0 && cs > 0
    ensures p < n * cs * ss <==> PlaceOf(ss, cs, p).i < n
  {
    DivLess(p, ss, n * cs);
    DivLess(p / ss, cs, n);
  }

  /** The bytes of cluster number k: x counts from 1. */
  lemma PlaceInCluster(ss: nat, cs: nat, k: nat, x: nat)
    requires ss > 0 && cs > 0 && 0 < x <= cs * ss
    ensures 0 <= (x - 1) / ss < cs
    ensures k * (cs * ss) + x > 0
    ensures PlaceOf(ss, cs, k * (cs * ss) + x - 1) == Place(k, (x - 1) / ss, (x - 1) % ss)
  {
    var y := x - 1;
    DivMod(y, ss);
    DivLess(y, ss, cs);
    var r, o := y / ss, y % ss;
    assert k * (cs * ss) == k * cs * ss;
    assert (k * cs + r) * ss + o == k * cs * ss + y;
    assert k * (cs * ss) >= 0;
    PlaceUnique(ss, cs, k, r, o);
  }

  lemma PlaceCluster(ss: nat, cs: nat, p: nat)
    requires ss > 0 && cs > 0
    ensures cs * ss > 0
    ensures PlaceOf(ss, cs, p).i == p / (cs * ss)
  {
    var u := cs * ss;
    MulMono(1, cs, ss);
    DivMod(p, u);
    PlaceInCluster(ss, cs, p / u, p % u + 1);
  }

  /** Whether a position that starts cluster number k is below n clusters. */
  lemma RoomAtStart(ss: nat, cs: nat, n: nat, k: nat)
    requires ss > 0 && cs > 0
    ensures k * (cs * ss) < n * cs * ss <==> k < n
    ensures k * (cs * ss) == n * cs * ss <==> k == n
  {
    var u := cs * ss;
    assert n * cs * ss == n * u;
    MulMono(1, cs, ss);
    if k < n {
      MulMono(k + 1, n, u);
      assert (k + 1) * u == k * u + u;
    } else {
      MulMono(n, k, u);
      if n < k {
        MulMono(n + 1, k, u);
        assert (n + 1) * u == n * u + u;
      }
    }
  }

  // ---- Bytes of a file ---------------------------------------------------------------

  function ByteAt(e: seq<Sector>, base: seq<nat>, chain: seq<nat>, a: Place): Byte {
    if a.i < |chain| && chain[a.i] < |base| && base[chain[a.i]] + a.r < |e| && a.o < |e[base[chain[a.i]] + a.r]|
    then e[base[chain[a.i]] + a.r][a.o] else 0
  }

  /** All bytes the chain has room for. */
  ghost function BytesOf(e: seq<Sector>, ss: nat, base: seq<nat>, cs: nat, chain: seq<nat>): (b: seq<Byte>)
    requires ss > 0 && cs > 0
    ensures |b| == |chain| * cs * ss
  {
    seq(|chain| * cs * ss, p requires 0 <= p < |chain| * cs * ss => ByteAt(e, base, chain, PlaceOf(ss, cs, p)))
  }

  /** Image e holds the bytes b in the clusters of the chain. */
  ghost predicate Stores(e: seq<Sector>, ss: nat, base: seq<nat>, cs: nat, chain: seq<nat>, b: seq<Byte>) {
    && ss > 0 && cs > 0
    && WellSized(e, ss) && OnDisk(|e|, base, cs, chain)
    && b == BytesOf(e, ss, base, cs, chain)
  }

  /** A byte the chain has room for lies in one of its clusters, and conversely. */
  lemma Allocated(e: seq<Sector>, base: seq<nat>, cs: nat, ss: nat, chain: seq<nat>, b: seq<Byte>, p: nat)
    requires Stores(e, ss, base, cs, chain, b)
    ensures p < |b| <==> PlaceOf(ss, cs, p).i < |chain|
  {
    PlaceRoom(ss, cs, |chain|, p);
  }

  /** Another image holds b overwritten by d at p, byte by byte. */
  /** A byte by its place. */
  lemma ByteStored(e: seq<Sector>, ss: nat, base: seq<nat>, cs: nat, chain: seq<nat>, b: seq<Byte>, i: nat, r: nat, o: nat)
    requires Stores(e, ss, base, cs, chain, b) && i < |chain| && r < cs && o < ss
    ensures chain[i] < |base| && base[chain[i]] + r < |e| && |e[base[chain[i]] + r]| == ss
    ensures (i * cs + r) * ss + o < |b| && b[(i * cs + r) * ss + o] == e[base[chain[i]] + r][o]
  {
    PlaceUnique(ss, cs, i, r, o);
    hide PlaceOf;
    Allocated(e, base, cs, ss, chain, b, (i * cs + r) * ss + o);
  }

  lemma StoresPointwise(e: seq<Sector>, w: seq<Sector>, ss: nat, base: seq<nat>, cs: nat, chain: seq<nat>,
                        b: seq<Byte>, p: nat, d: seq<Byte>)
    requires Stores(e, ss, base, cs, chain, b) && p + |d| <= |b|
    requires |w| == |e| && WellSized(w, ss)
    requires forall x :: 0 <= x < |b| ==>
               ByteAt(w, base, chain, PlaceOf(ss, cs, x)) ==
                 (if p <= x < p + |d| then d[x - p] else ByteAt(e, base, chain, PlaceOf(ss, cs, x)))
    ensures Stores(w, ss, base, cs, chain, Splice(b, p, d))
  {
    hide PlaceOf, ByteAt;
    var c := Splice(b, p, d);
    forall x | 0 <= x < |b|
      ensures c[x] == BytesOf(w, ss, base, cs, chain)[x]
    {
      assert b[x] == ByteAt(e, base, chain, PlaceOf(ss, cs, x));
    }
  }

  /** The bytes of a chain depend on the data area only. */
  lemma StoresFrame(e: seq<Sector>, w: seq<Sector>, ss: nat, base: seq<nat>, cs: nat, lo: nat, chain: seq<nat>, b: seq<Byte>)
    requires Stores(e, ss, base, cs, chain, b) && |w| == |e| && WellSized(w, ss) && Placed(base, cs, lo, |e|)
    requires forall s :: lo <= s < |e| ==> w[s] == e[s]
    ensures Stores(w, ss, base, cs, chain, b)
  {
    forall a: Place
      ensures ByteAt(w, base, chain, a) == ByteAt(e, base, chain, a)
    {
      assert a.i < |chain| ==> lo <= base[chain[a.i]];
    }
    hide PlaceOf, ByteAt;
    assert BytesOf(w, ss, base, cs, chain) == BytesOf(e, ss, base, cs, chain);
  }

  /** A chain that continues another one holds its bytes and more. */
  lemma StoresLonger(e: seq<Sector>, ss: nat, base: seq<nat>, cs: nat, chain: seq<nat>, b: seq<Byte>, longer: seq<nat>)
    requires Stores(e, ss, base, cs, chain, b) && chain <= longer && OnDisk(|e|, base, cs, longer)
    ensures var c := BytesOf(e, ss, base, cs, longer); Stores(e, ss, base, cs, longer, c) && b <= c
  {
    var c := BytesOf(e, ss, base, cs, longer);
    MulMono(|chain|, |longer|, cs);
    MulMono(|chain| * cs, |longer| * cs, ss);
    forall x | 0 <= x < |b|
      ensures b[x] == c[x]
    {
      PlaceRoom(ss, cs, |chain|, x);
    }
  }

  /** The bytes of a prefix of a chain. */
  lemma StoresShorter(e: seq<Sector>, ss: nat, base: seq<nat>, cs: nat, chain: seq<nat>, b: seq<Byte>, n: nat)
    requires Stores(e, ss, base, cs, chain, b) && n <= |chain|
    ensures n * cs * ss <= |b| && Stores(e, ss, base, cs, chain[..n], b[..n * cs * ss])
  {
    var c := BytesOf(e, ss, base, cs, chain[..n]);
    MulMono(n, |chain|, cs);
    MulMono(n * cs, |chain| * cs, ss);
    forall x | 0 <= x < n * cs * ss
      ensures b[x] == c[x]
    {
      PlaceRoom(ss, cs, n, x);
    }
  }

  // ---- Reading -----------------------------------------------------------------------

  /** The image holds, from sector s on, the n sectors of the file from byte p on. */
  ghost predicate RunAt(e: seq<Sector>, base: seq<nat>, cs: nat, ss: nat, chain: seq<nat>, p: nat, n: nat, s: nat) {
    && ss > 0 && cs > 0
    && var a := PlaceOf(ss, cs, p);
       a.o == 0 && a.i < |chain| && a.r + n <= cs && chain[a.i] < |base| && s == base[chain[a.i]] + a.r && s + n <= |e|
  }

  lemma RunByte(e: seq<Sector>, base: seq<nat>, cs: nat, ss: nat, chain: seq<nat>, p: nat, n: nat, s: nat, j: nat)
    requires RunAt(e, base, cs, ss, chain, p, n, s) && OnDisk(|e|, base, cs, chain) && WellSized(e, ss) && j < n * ss
    ensures p + j < |chain| * cs * ss && 0 <= j / ss < n && 0 <= j % ss < ss
    ensures ByteAt(e, base, chain, PlaceOf(ss, cs, p + j)) == e[s + j / ss][j % ss]
  {
    SectorOfByte(j, n, ss);
    PlaceRun(ss, cs, p, j);
    PlaceRoom(ss, cs, |chain|, p + j);
  }

  /** Reading n whole sectors, d, at byte position p. */
  lemma ReadRun(e: seq<Sector>, base: seq<nat>, cs: nat, ss: nat, chain: seq<nat>, b: seq<Byte>, p: nat, n: nat, s: nat, d: seq<Byte>)
    requires Stores(e, ss, base, cs, chain, b) && RunAt(e, base, cs, ss, chain, p, n, s) && n > 0
    requires d == Flat(e[s..s + n])
    ensures |d| == n * ss && 0 < |d| && p + |d| <= |b| && d == b[p..p + |d|]
  {
    var t := e[s..s + n];
    FlatLength(t, ss);
    assert n * ss >= ss by { MulMono(1, n, ss); }
    hide PlaceOf, ByteAt, RunAt;
    RunByte(e, base, cs, ss, chain, p, n, s, |d| - 1);
    forall x: nat | p <= x < p + |d|
      ensures b[x] == d[x - p]
    {
      ByteInSector(t, ss, n, x - p);
      RunByte(e, base, cs, ss, chain, p, n, s, x - p);
    }
  }

  lemma PartByte(e: seq<Sector>, base: seq<nat>, cs: nat, ss: nat, chain: seq<nat>, p: nat, j: nat)
    requires WellSized(e, ss) && ss > 0 && cs > 0 && OnDisk(|e|, base, cs, chain)
    requires PlaceOf(ss, cs, p).i < |chain| && PlaceOf(ss, cs, p).o + j < ss
    ensures var a := PlaceOf(ss, cs, p);
            var s := base[chain[a.i]] + a.r;
            s < |e| && p + j < |chain| * cs * ss && ByteAt(e, base, chain, PlaceOf(ss, cs, p + j)) == e[s][a.o + j]
  {
    PlaceStep(ss, cs, p, j);
    PlaceRoom(ss, cs, |chain|, p + j);
  }

  /** Reading part of a sector at byte position p. */
  lemma ReadPart(e: seq<Sector>, base: seq<nat>, cs: nat, ss: nat, chain: seq<nat>, b: seq<Byte>, p: nat, n: nat)
    requires Stores(e, ss, base, cs, chain, b)
    requires PlaceOf(ss, cs, p).i < |chain| && PlaceOf(ss, cs, p).o + n <= ss && n > 0
    requires chain[PlaceOf(ss, cs, p).i] < |base|
    ensures var a := PlaceOf(ss, cs, p);
            var s := base[chain[a.i]] + a.r;
            s < |e| && |e[s]| == ss && p + n <= |b| && e[s][a.o..a.o + n] == b[p..p + n]
  {
    var a := PlaceOf(ss, cs, p);
    var s := base[chain[a.i]] + a.r;
    hide PlaceOf, ByteAt;
    PartByte(e, base, cs, ss, chain, p, n - 1);
    var d := e[s][a.o..a.o + n];
    forall x: nat | p <= x < p + n
      ensures b[x] == d[x - p]
    {
      PartByte(e, base, cs, ss, chain, p, x - p);
    }
  }

  // ---- Writing -----------------------------------------------------------------------

  /** A byte string cut into n sectors. */
  function Chunks(d: seq<Byte>, ss: nat, n: nat): (t: seq<Sector>)
    requires |d| == n * ss
    ensures |t| == n && forall s :: 0 <= s < |t| ==> |t[s]| == ss
  {
    if n == 0 then [] else
      assert (n - 1) * ss + ss == n * ss;
      [d[..ss]] + Chunks(d[ss..], ss, n - 1)
  }

  lemma {:induction false} FlatChunks(d: seq<Byte>, ss: nat, n: nat)
    requires |d| == n * ss
    ensures Flat(Chunks(d, ss, n)) == d
  {
    if n > 0 {
      assert (n - 1) * ss + ss == n * ss;
      FlatChunks(d[ss..], ss, n - 1);
    }
  }

  lemma ChunkAt(d: seq<Byte>, ss: nat, n: nat, j: nat)
    requires ss > 0 && |d| == n * ss && j < |d|
    ensures 0 <= j / ss < n && Chunks(d, ss, n)[j / ss][j % ss] == d[j]
  {
    FlatChunks(d, ss, n);
    ByteInSector(Chunks(d, ss, n), ss, n, j);
  }

  /** A sector of another place of the file is not among the n sectors from s on. */
  lemma OtherSector(e: seq<Sector>, base: seq<nat>, cs: nat, ss: nat, chain: seq<nat>, p: nat, n: nat, s: nat, x: nat)
    requires ss > 0 && cs > 0 && OnDisk(|e|, base, cs, chain) && Spread(base, cs) && NoRepeat(chain)
    requires RunAt(e, base, cs, ss, chain, p, n, s)
    requires PlaceOf(ss, cs, x).i < |chain| && !(p <= x < p + n * ss)
    ensures var a := PlaceOf(ss, cs, x); !(s <= base[chain[a.i]] + a.r < s + n)
  {
    var a, b := PlaceOf(ss, cs, x), PlaceOf(ss, cs, p);
    if a.i == b.i {
      if b.r <= a.r < b.r + n {
        PlaceBack(ss, cs, p, n, x);
      }
    } else {
      assert chain[a.i] != chain[b.i];
      assert chain[a.i] < chain[b.i] ==> base[chain[a.i]] + cs <= base[chain[b.i]];
      assert chain[b.i] < chain[a.i] ==> base[chain[b.i]] + cs <= base[chain[a.i]];
    }
  }

  /** Overwriting n whole sectors at byte position p. */
  lemma WriteRun(e: seq<Sector>, base: seq<nat>, cs: nat, ss: nat, chain: seq<nat>, b: seq<Byte>, p: nat, n: nat, s: nat, d: seq<Byte>)
    requires Stores(e, ss, base, cs, chain, b) && Spread(base, cs) && NoRepeat(chain)
    requires RunAt(e, base, cs, ss, chain, p, n, s) && n > 0 && |d| == n * ss
    ensures 0 < |d| && p + |d| <= |b|
    ensures Stores(Splice(e, s, Chunks(d, ss, n)), ss, base, cs, chain, Splice(b, p, d))
  {
    ReadRun(e, base, cs, ss, chain, b, p, n, s, Flat(e[s..s + n]));
    var t := Chunks(d, ss, n);
    var w := Splice(e, s, t);
    forall x | 0 <= x < |b|
      ensures ByteAt(w, base, chain, PlaceOf(ss, cs, x)) ==
              if p <= x < p + |d| then d[x - p] else ByteAt(e, base, chain, PlaceOf(ss, cs, x))
    {
      WrittenByte(e, base, cs, ss, chain, p, n, s, d, x);
    }
    StoresPointwise(e, w, ss, base, cs, chain, b, p, d);
  }

  lemma WrittenByte(e: seq<Sector>, base: seq<nat>, cs: nat, ss: nat, chain: seq<nat>, p: nat, n: nat, s: nat, d: seq<Byte>, x: nat)
    requires ss > 0 && cs > 0 && WellSized(e, ss) && OnDisk(|e|, base, cs, chain) && Spread(base, cs) && NoRepeat(chain)
    requires RunAt(e, base, cs, ss, chain, p, n, s) && |d| == n * ss && x < |chain| * cs * ss
    ensures ByteAt(Splice(e, s, Chunks(d, ss, n)), base, chain, PlaceOf(ss, cs, x)) ==
              if p <= x < p + |d| then d[x - p] else ByteAt(e, base, chain, PlaceOf(ss, cs, x))
  {
    if p <= x < p + |d| {
      WrittenInside(e, base, cs, ss, chain, p, n, s, d, x - p);
    } else {
      PlaceRoom(ss, cs, |chain|, x);
      OtherSector(e, base, cs, ss, chain, p, n, s, x);
      ByteOutside(e, base, chain, s, Chunks(d, ss, n), PlaceOf(ss, cs, x));
    }
  }

  lemma ByteOutside(e: seq<Sector>, base: seq<nat>, chain: seq<nat>, s: nat, t: seq<Sector>, a: Place)
    requires s + |t| <= |e| && a.i < |chain| && chain[a.i] < |base| && !(s <= base[chain[a.i]] + a.r < s + |t|)
    ensures ByteAt(Splice(e, s, t), base, chain, a) == ByteAt(e, base, chain, a)
  {}

  lemma SpliceAt<T>(e: seq<T>, s: nat, t: seq<T>, k: nat)
    requires s + |t| <= |e| && k < |t|
    ensures |Splice(e, s, t)| == |e| && Splice(e, s, t)[s + k] == t[k]
  {}

  lemma WrittenInside(e: seq<Sector>, base: seq<nat>, cs: nat, ss: nat, chain: seq<nat>, p: nat, n: nat, s: nat, d: seq<Byte>, j: nat)
    requires ss > 0 && cs > 0 && WellSized(e, ss) && OnDisk(|e|, base, cs, chain)
    requires RunAt(e, base, cs, ss, chain, p, n, s) && |d| == n * ss && j < |d|
    ensures ByteAt(Splice(e, s, Chunks(d, ss, n)), base, chain, PlaceOf(ss, cs, p + j)) == d[j]
  {
    hide PlaceOf, ByteAt, Chunks;
    var w := Splice(e, s, Chunks(d, ss, n));
    ChunkAt(d, ss, n, j);
    SpliceAt(e, s, Chunks(d, ss, n), j / ss);
    RunByte(w, base, cs, ss, chain, p, n, s, j);
  }

  /** Overwriting part of a sector at byte position p. */
  lemma WritePart(e: seq<Sector>, base: seq<nat>, cs: nat, ss: nat, chain: seq<nat>, b: seq<Byte>, p: nat, d: seq<Byte>)
    requires Stores(e, ss, base, cs, chain, b) && Spread(base, cs) && NoRepeat(chain) && d != []
    requires PlaceOf(ss, cs, p).i < |chain| && PlaceOf(ss, cs, p).o + |d| <= ss
    requires chain[PlaceOf(ss, cs, p).i] < |base|
    ensures var a := PlaceOf(ss, cs, p);
            var s := base[chain[a.i]] + a.r;
            s < |e| && |e[s]| == ss && p + |d| <= |b| &&
            Stores(e[s := Splice(e[s], a.o, d)], ss, base, cs, chain, Splice(b, p, d))
  {
    ReadPart(e, base, cs, ss, chain, b, p, |d|);
    var a := PlaceOf(ss, cs, p);
    var s := base[chain[a.i]] + a.r;
    var w := e[s := Splice(e[s], a.o, d)];
    forall x | 0 <= x < |b|
      ensures ByteAt(w, base, chain, PlaceOf(ss, cs, x)) ==
              if p <= x < p + |d| then d[x - p] else ByteAt(e, base, chain, PlaceOf(ss, cs, x))
    {
      PatchedByte(e, base, cs, ss, chain, p, s, d, x);
    }
    StoresPointwise(e, w, ss, base, cs, chain, b, p, d);
  }

  lemma PatchedByte(e: seq<Sector>, base: seq<nat>, cs: nat, ss: nat, chain: seq<nat>, p: nat, s: nat, d: seq<Byte>, x: nat)
    requires ss > 0 && cs > 0 && WellSized(e, ss) && OnDisk(|e|, base, cs, chain) && Spread(base, cs) && NoRepeat(chain)
    requires PlaceOf(ss, cs, p).i < |chain| && PlaceOf(ss, cs, p).o + |d| <= ss
    requires chain[PlaceOf(ss, cs, p).i] < |base| && s == base[chain[PlaceOf(ss, cs, p).i]] + PlaceOf(ss, cs, p).r
    requires s < |e| && |e[s]| == ss && x < |chain| * cs * ss
    ensures ByteAt(e[s := Splice(e[s], PlaceOf(ss, cs, p).o, d)], base, chain, PlaceOf(ss, cs, x)) ==
              if p <= x < p + |d| then d[x - p] else ByteAt(e, base, chain, PlaceOf(ss, cs, x))
  {
    PlaceRoom(ss, cs, |chain|, x);
    var a := PlaceOf(ss, cs, p);
    PlaceBefore(ss, cs, p, a.o);
    var q := p - a.o;
    if q <= x < q + ss {
      PlaceStep(ss, cs, q, x - q);
    } else {
      OtherSector(e, base, cs, ss, chain, q, 1, s, x);
    }
    hide PlaceOf;
  }

  // ---- Cursors -----------------------------------------------------------------------

  /**
  A file cursor at p > 0: c is the cluster of the byte before p, and s the sector of byte p
  unless p starts a sector.
  */
  ghost predicate CursorAt(base: seq<nat>, ss: nat, cs: nat, chain: seq<nat>, p: nat, c: nat, s: nat) {
    p > 0 ==>
      && ss > 0 && cs > 0
      && var a := PlaceOf(ss, cs, p - 1);
         a.i < |chain| && c == chain[a.i] < |base| && (a.o + 1 < ss ==> s == base[c] + a.r)
  }

  /** What a cursor at p says about the place of byte p. */
  lemma CursorPlace(base: seq<nat>, ss: nat, cs: nat, chain: seq<nat>, p: nat, c: nat, s: nat)
    requires ss > 0 && cs > 0 && CursorAt(base, ss, cs, chain, p, c, s)
    ensures var a := PlaceOf(ss, cs, p);
            && (p == 0 ==> a == Place(0, 0, 0))
            && (p > 0 && a.o == a.r == 0 ==> 0 < a.i <= |chain| && c == chain[a.i - 1] < |base|)
            && (a.o != 0 || a.r != 0 ==> a.i < |chain| && c == chain[a.i] < |base|)
            && (a.o != 0 ==> s == base[c] + a.r)
  {
    if p == 0 {
      PlaceUnique(ss, cs, 0, 0, 0);
    } else {
      PlaceNext(ss, cs, p - 1);
    }
  }

  /** The cursor after n more bytes of the sector of byte p. */
  lemma CursorPart(base: seq<nat>, ss: nat, cs: nat, chain: seq<nat>, p: nat, n: nat, c: nat, s: nat)
    requires ss > 0 && cs > 0 && n > 0
    requires var a := PlaceOf(ss, cs, p);
             a.o + n <= ss && a.i < |chain| && c == chain[a.i] < |base| && s == base[c] + a.r
    ensures CursorAt(base, ss, cs, chain, p + n, c, s)
  {
    PlaceStep(ss, cs, p, n - 1);
  }

  /** The cursor after k whole sectors of the cluster of byte p. */
  lemma CursorRun(base: seq<nat>, ss: nat, cs: nat, chain: seq<nat>, p: nat, k: nat, c: nat, s: nat)
    requires ss > 0 && cs > 0 && k > 0
    requires var a := PlaceOf(ss, cs, p);
             a.o == 0 && a.r + k <= cs && a.i < |chain| && c == chain[a.i] < |base|
    ensures CursorAt(base, ss, cs, chain, p + k * ss, c, s)
  {
    var j := (k - 1) * ss + (ss - 1);
    assert j + 1 == k * ss;
    WithinUnit(k - 1, ss, ss - 1);
    PlaceRun(ss, cs, p, j);
  }

  /** The byte before x in a cluster: in the same sector as x, unless x starts a sector. */
  lemma ByteBefore(ss: nat, x: nat)
    requires ss > 0 && x > 0
    ensures x % ss != 0 ==> (x - 1) / ss == x / ss
    ensures x % ss == 0 <==> (x - 1) % ss == ss - 1
  {
    var q, o := (x - 1) / ss, (x - 1) % ss;
    DivMod(x - 1, ss);
    if o + 1 < ss {
      WithinUnit(q, ss, o + 1);
    } else {
      assert x == (q + 1) * ss + 0;
      WithinUnit(q + 1, ss, 0);
    }
  }

  /** The cursor x bytes into cluster number k, x from 1 to the size of a cluster. */
  lemma CursorInCluster(base: seq<nat>, ss: nat, cs: nat, chain: seq<nat>, k: nat, x: nat, s: nat)
    requires ss > 0 && cs > 0 && 0 < x <= cs * ss && k < |chain| && chain[k] < |base|
    requires x % ss != 0 ==> s == base[chain[k]] + x / ss
    ensures CursorAt(base, ss, cs, chain, k * (cs * ss) + x, chain[k], s)
    ensures x % ss != 0 ==> x / ss < cs
  {
    hide PlaceOf;
    PlaceInCluster(ss, cs, k, x);
    ByteBefore(ss, x);
  }

  // ---- What a change of the image leaves alone -------------------------------------------

  /** From sector lo on, the images differ at most in the sectors a .. a+n-1. */
  ghost predicate SameBut(v: seq<Sector>, w: seq<Sector>, lo: nat, a: nat, n: nat) {
    |v| == |w| && forall s :: lo <= s < |v| && !(a <= s < a + n) ==> w[s] == v[s]
  }

  /** From sector lo on, the images differ at most in the clusters of the chain. */
  ghost predicate SameElsewhere(v: seq<Sector>, w: seq<Sector>, lo: nat, base: seq<nat>, cs: nat, chain: seq<nat>) {
    |v| == |w| &&
    forall s :: lo <= s < |v| && (forall i :: 0 <= i < |chain| ==> !InCluster(base, cs, chain[i], s)) ==> w[s] == v[s]
  }

  lemma SameAll(v: seq<Sector>, lo: nat, base: seq<nat>, cs: nat, chain: seq<nat>)
    ensures SameElsewhere(v, v, lo, base, cs, chain)
  {}

  lemma SameSelf(v: seq<Sector>, lo: nat, a: nat, n: nat)
    ensures SameBut(v, v, lo, a, n)
  {}

  lemma SameSplice(v: seq<Sector>, s: nat, t: seq<Sector>, lo: nat, a: nat, n: nat)
    requires s + |t| <= |v| && a <= s && s + |t| <= a + n
    ensures SameBut(v, Splice(v, s, t), lo, a, n)
  {}

  /** A change in the data area only, and then one in a cluster of a chain. */
  lemma SameThen(u: seq<Sector>, v: seq<Sector>, w: seq<Sector>, lo: nat, base: seq<nat>, cs: nat, c: seq<nat>, d: seq<nat>)
    requires SameElsewhere(u, v, lo, base, cs, c) && SameElsewhere(v, w, lo, base, cs, d) && c <= d
    ensures SameElsewhere(u, w, lo, base, cs, d)
  {
    forall s | lo <= s < |u| && (forall i :: 0 <= i < |d| ==> !InCluster(base, cs, d[i], s))
      ensures w[s] == u[s]
    {
      assert forall i :: 0 <= i < |c| ==> c[i] == d[i];
    }
  }

  /** The images differ in the clusters of c, then in those of d, and all of them are among e. */
  lemma SameBoth(u: seq<Sector>, v: seq<Sector>, w: seq<Sector>, lo: nat, base: seq<nat>, cs: nat, c: seq<nat>, d: seq<nat>, e: seq<nat>)
    requires SameElsewhere(u, v, lo, base, cs, c) && SameElsewhere(v, w, lo, base, cs, d)
    requires (forall i :: 0 <= i < |c| ==> c[i] in e) && forall i :: 0 <= i < |d| ==> d[i] in e
    ensures SameElsewhere(u, w, lo, base, cs, e)
  {
    forall s | lo <= s < |u| && forall i :: 0 <= i < |e| ==> !InCluster(base, cs, e[i], s)
      ensures w[s] == u[s]
    {
      assert forall i :: 0 <= i < |c| ==> !InCluster(base, cs, c[i], s);
      assert forall i :: 0 <= i < |d| ==> !InCluster(base, cs, d[i], s);
    }
  }

  lemma SameMore(v: seq<Sector>, w: seq<Sector>, lo: nat, base: seq<nat>, cs: nat, c: seq<nat>, d: seq<nat>)
    requires SameElsewhere(v, w, lo, base, cs, c)
    ensures SameElsewhere(v, w, lo, base, cs, c + d)
  {
    SameAll(w, lo, base, cs, []);
    SameBoth(v, w, w, lo, base, cs, c, [], c + d);
  }

  lemma SameInOne(v: seq<Sector>, w: seq<Sector>, lo: nat, base: seq<nat>, cs: nat, chain: seq<nat>, i: nat)
    requires i < |chain| && 2 <= chain[i] < |base| && SameBut(v, w, lo, base[chain[i]], cs)
    ensures SameElsewhere(v, w, lo, base, cs, chain)
  {}

  /** The bytes of a chain that shares no cluster with the one that changed. */
  lemma SameBytes(v: seq<Sector>, w: seq<Sector>, lo: nat, ss: nat, base: seq<nat>, cs: nat, chain: seq<nat>,
                  e: seq<nat>, b: seq<Byte>)
    requires SameElsewhere(v, w, lo, base, cs, chain) && WellSized(w, ss) && Placed(base, cs, lo, |v|)
    requires Stores(v, ss, base, cs, e, b) && (forall i :: 0 <= i < |chain| ==> 2 <= chain[i] < |base|)
    requires forall x :: x in e ==> x !in chain
    ensures Stores(w, ss, base, cs, e, b)
  {
    var x, y := BytesOf(v, ss, base, cs, e), BytesOf(w, ss, base, cs, e);
    forall p | 0 <= p < |x|
      ensures y[p] == x[p]
    {
      var a := PlaceOf(ss, cs, p);
      PlaceRoom(ss, cs, |e|, p);
      SectorElsewhere(base, cs, lo, |v|, chain, e[a.i], base[e[a.i]] + a.r);
    }
    assert y == x;
  }

  /** A sector of a cluster is in no other one. */
  lemma SectorElsewhere(base: seq<nat>, cs: nat, lo: nat, hi: nat, chain: seq<nat>, c: nat, s: nat)
    requires Placed(base, cs, lo, hi) && c !in chain && InCluster(base, cs, c, s)
    ensures lo <= s < hi && forall i :: 0 <= i < |chain| ==> !InCluster(base, cs, chain[i], s)
  {
    forall i | 0 <= i < |chain|
      ensures !InCluster(base, cs, chain[i], s)
    {
      assert chain[i] in chain;
      if 2 <= chain[i] < c {
        assert base[chain[i]] + cs <= base[c];
      } else if c < chain[i] < |base| {
        assert base[c] + cs <= base[chain[i]];
      }
    }
  }

  /** How many clusters n bytes take. */
  function ClustersFor(ss: nat, cs: nat, n: nat): nat
    requires ss > 0 && cs > 0
  {
    if n == 0 then 0 else PlaceOf(ss, cs, n - 1).i + 1
  }

  /** A cursor stands in the last of the clusters that the bytes before it take. */
  lemma CursorClusters(base: seq<nat>, ss: nat, cs: nat, chain: seq<nat>, p: nat, c: nat, s: nat)
    requires ss > 0 && cs > 0 && CursorAt(base, ss, cs, chain, p, c, s)
    ensures ClustersFor(ss, cs, p) <= |chain|
    ensures p > 0 ==> c == chain[ClustersFor(ss, cs, p) - 1]
    ensures NoRepeat(chain) ==> forall k :: 0 <= k < |chain| && p > 0 && c == chain[k] ==> ClustersFor(ss, cs, p) == k + 1
  {
    hide PlaceOf;
  }

  lemma ClustersMono(ss: nat, cs: nat, m: nat, n: nat)
    requires ss > 0 && cs > 0 && m <= n
    ensures ClustersFor(ss, cs, m) <= ClustersFor(ss, cs, n)
  {
    hide ClustersFor;
    var k := ClustersFor(ss, cs, n);
    ClustersHold(ss, cs, n, k);
    ClustersHold(ss, cs, m, k);
  }

  /** n bytes take at most k clusters exactly when k clusters hold them. */
  lemma ClustersHold(ss: nat, cs: nat, n: nat, k: nat)
    requires ss > 0 && cs > 0
    ensures ClustersFor(ss, cs, n) <= k <==> n <= k * cs * ss
  {
    if n > 0 {
      PlaceRoom(ss, cs, k, n - 1);
    }
  }

  /** Number of whole sectors among n bytes, clipped at a limit. */
  method WholeSectors(n: nat, ss: nat, limit: nat) returns (cc: nat)
    requires ss > 0 && limit > 0
    ensures cc <= limit && cc * ss <= n
    ensures cc == 0 <==> n < ss
  {
    DivMod(n, ss);
    cc := n / ss;
    if cc > limit {
      MulMono(limit, cc, ss);
      cc := limit;
    }
  }
}
