/**
The packed file allocation table as a value: a byte sequence holding 12, 16 or 32 bit
entries. `Get` and `Put` are the byte manipulations of get_fat and put_fat; `PutIsUpdate`
shows that, seen as a sequence of entries, `Put` changes exactly one of them.
*/
module FatTable {
  import opened Sectors

  datatype FatType = FAT12 | FAT16 | FAT32

  const MAX_FAT12 := 0xFF5
  const MAX_FAT16 := 0xFFF5
  const MAX_FAT32 := 0x0FFFFFF5
  const DWORD_MAX := 0xFFFF_FFFF

  /** The largest number of clusters of each FAT type. */
  function MaxClusters(t: FatType): nat {
    match t
    case FAT12 => MAX_FAT12
    case FAT16 => MAX_FAT16
    case FAT32 => MAX_FAT32
  }

  /** The part of a 32-bit value that an entry of the given type can hold. */
  function Masked(t: FatType, val: nat): nat {
    match t
    case FAT12 => val % 0x1000
    case FAT16 => val % 0x1_0000
    case FAT32 => val % 0x1000_0000
  }

  /** The end-of-chain mark: what is left of 0xFFFFFFFF in an entry. */
  function Eoc(t: FatType): nat { Masked(t, DWORD_MAX) }

  /** Bytes taken by a table of n entries, as computed at mount time. */
  function TableBytes(t: FatType, n: nat): nat {
    match t
    case FAT12 => n * 3 / 2 + n % 2
    case FAT16 => n * 2
    case FAT32 => n * 4
  }

  function Load16(b: seq<Byte>, i: nat): nat
    requires i + 2 <= |b|
  {
    b[i] as int + 0x100 * (b[i + 1] as int)
  }

  function Load32(b: seq<Byte>, i: nat): nat
    requires i + 4 <= |b|
  {
    Load16(b, i) + 0x1_0000 * Load16(b, i + 2)
  }

  function Store16(b: seq<Byte>, i: nat, val: nat): (r: seq<Byte>)
    requires i + 2 <= |b|
  {
    b[i := val % 0x100][i + 1 := val / 0x100 % 0x100]
  }

  function Store32(b: seq<Byte>, i: nat, val: nat): (r: seq<Byte>)
    requires i + 4 <= |b|
  {
    Store16(Store16(b, i, val), i + 2, val / 0x1_0000)
  }

  /** Offset of the first byte of entry c. */
  function Offset(t: FatType, c: nat): nat {
    match t
    case FAT12 => c + c / 2
    case FAT16 => c * 2
    case FAT32 => c * 4
  }

  function Width(t: FatType): nat { if t == FAT32 then 4 else 2 }

  /** Value of the FAT12 entry c stored in its two bytes. */
  function Unpack12(c: nat, lo: Byte, hi: Byte): nat {
    var wc := lo + 0x100 * hi;
    if c % 2 == 1 then wc / 16 else wc % 0x1000
  }

  /** New first byte of the FAT12 entry c: an odd entry owns only the upper half of it. */
  function Pack12Lo(c: nat, lo: Byte, val: nat): Byte {
    if c % 2 == 1 then lo % 16 + val % 16 * 16 else val % 0x100
  }

  /** New second byte of the FAT12 entry c: an even entry owns only the lower half of it. */
  function Pack12Hi(c: nat, hi: Byte, val: nat): Byte {
    if c % 2 == 1 then val / 16 % 0x100 else hi - hi % 16 + val / 0x100 % 16
  }

  function Get(t: FatType, b: seq<Byte>, c: nat): nat
    requires Offset(t, c) + Width(t) <= |b|
  {
    match t
    case FAT12 => Unpack12(c, b[c + c / 2], b[c + c / 2 + 1])
    case FAT16 => Load16(b, c * 2)
    case FAT32 => Load32(b, c * 4) % 0x1000_0000
  }

  function Put(t: FatType, b: seq<Byte>, c: nat, val: nat): (r: seq<Byte>)
    requires Offset(t, c) + Width(t) <= |b|
  {
    match t
    case FAT12 =>
      var o := c + c / 2;
      b[o := Pack12Lo(c, b[o], val)][o + 1 := Pack12Hi(c, b[o + 1], val)]
    case FAT16 => Store16(b, c * 2, val)
    case FAT32 => Store32(b, c * 4, Merge32(Load32(b, c * 4), val))
  }

  /** A FAT32 entry keeps its upper four bits when it is rewritten. */
  function Merge32(before: nat, val: nat): nat {
    val % 0x1000_0000 + (before - before % 0x1000_0000)
  }

  /** The table as a sequence of n entries. */
  function Entries(t: FatType, b: seq<Byte>, n: nat): (f: seq<nat>)
    requires TableBytes(t, n) <= |b|
    ensures |f| == n
  {
    seq(n, c requires 0 <= c < n => EntryFits(t, c, n); Get(t, b, c))
  }

  lemma EntryFits(t: FatType, c: nat, n: nat)
    requires c < n
    ensures Offset(t, c) + Width(t) <= TableBytes(t, n)
  {
    if t == FAT12 {
      var a, b := c / 2, n / 2;
      assert c == 2 * a + c % 2 && n == 2 * b + n % 2;
      assert n * 3 / 2 == 3 * b + n % 2;
    }
  }

  lemma Load16Store16(b: seq<Byte>, i: nat, val: nat)
    requires i + 2 <= |b|
    ensures Load16(Store16(b, i, val), i) == val % 0x1_0000
  {}

  lemma Load32Store32(b: seq<Byte>, i: nat, val: nat)
    requires i + 4 <= |b| && val <= DWORD_MAX
    ensures Load32(Store32(b, i, val), i) == val
  {
    Load16Store16(b, i, val);
    var c := Store16(b, i, val);
    Load16Store16(c, i + 2, val / 0x1_0000);
    assert Load16(Store32(b, i, val), i) == Load16(c, i);
  }

  /** A 16-bit entry lies within one sector, j, at offset o. */
  lemma WordPlace(c: nat, ss: nat, n: nat, j: nat, o: nat)
    requires ss > 0 && ss % 4 == 0 && j == c / (ss / 2) && o == c * 2 % ss && c * 2 + 2 <= n * ss
    ensures j < n && o + 2 <= ss && j == c * 2 / ss
  {
    var h := ss / 2;
    assert ss == h * 2 by { assert ss == ss / 4 * 4; }
    Doubled(c, h);
    SectorOfByte(c * 2, n, ss);
  }

  /** A 32-bit entry lies within one sector, j, at offset o. */
  lemma DwordPlace(c: nat, ss: nat, n: nat, j: nat, o: nat)
    requires ss > 0 && ss % 4 == 0 && j == c / (ss / 4) && o == c * 4 % ss && c * 4 + 4 <= n * ss
    ensures j < n && o + 4 <= ss && j == c * 4 / ss
  {
    var h := ss / 4;
    assert ss == h * 4;
    Quadrupled(c, h);
    SectorOfByte(c * 4, n, ss);
  }

  lemma WordAt(t: seq<Sector>, ss: nat, n: nat, c: nat, j: nat, o: nat, w: nat)
    requires WellSized(t, ss) && |t| == n
    requires ss > 0 && ss % 4 == 0 && j == c / (ss / 2) && o == c * 2 % ss && c * 2 + 2 <= n * ss
    ensures j < n && o + 2 <= ss && c * 2 + 2 <= |Flat(t)|
    ensures Load16(Flat(t), c * 2) == Load16(t[j], o)
    ensures Flat(t[j := Store16(t[j], o, w)]) == Store16(Flat(t), c * 2, w)
  {
    var k := c * 2;
    WordPlace(c, ss, n, j, o);
    LoadWithin(t, ss, n, k);
    StoreWithin(t, ss, n, k, w);
  }

  lemma DwordAt(t: seq<Sector>, ss: nat, n: nat, c: nat, j: nat, o: nat, w: nat)
    requires WellSized(t, ss) && |t| == n
    requires ss > 0 && ss % 4 == 0 && j == c / (ss / 4) && o == c * 4 % ss && c * 4 + 4 <= n * ss
    ensures j < n && o + 4 <= ss && c * 4 + 4 <= |Flat(t)|
    ensures Load32(Flat(t), c * 4) == Load32(t[j], o)
    ensures Flat(t[j := Store32(t[j], o, w)]) == Store32(Flat(t), c * 4, w)
  {
    var k := c * 4;
    DwordPlace(c, ss, n, j, o);
    LoadDword(t, ss, n, k);
    StoreDword(t, ss, n, k, w);
  }

  /** Sector and offset of a 16-bit entry in a table of n sectors. */
  method LocateWord(ghost t: seq<Sector>, ss: nat, ghost n: nat, c: nat) returns (j: nat, o: nat)
    requires WellSized(t, ss) && |t| == n && ss > 0 && ss % 4 == 0 && c * 2 + 2 <= n * ss
    ensures j < n && o + 2 <= ss && c * 2 + 2 <= |Flat(t)|
    ensures Load16(Flat(t), c * 2) == Load16(t[j], o)
    ensures forall w :: Flat(t[j := Store16(t[j], o, w)]) == Store16(Flat(t), c * 2, w)
  {
    j, o := c / (ss / 2), c * 2 % ss;
    WordAt(t, ss, n, c, j, o, 0);
    forall w: nat ensures Flat(t[j := Store16(t[j], o, w)]) == Store16(Flat(t), c * 2, w) {
      WordAt(t, ss, n, c, j, o, w);
    }
  }

  /** Sector and offset of a 32-bit entry in a table of n sectors. */
  method LocateDword(ghost t: seq<Sector>, ss: nat, ghost n: nat, c: nat) returns (j: nat, o: nat)
    requires WellSized(t, ss) && |t| == n && ss > 0 && ss % 4 == 0 && c * 4 + 4 <= n * ss
    ensures j < n && o + 4 <= ss && c * 4 + 4 <= |Flat(t)|
    ensures Load32(Flat(t), c * 4) == Load32(t[j], o)
    ensures forall w :: Flat(t[j := Store32(t[j], o, w)]) == Store32(Flat(t), c * 4, w)
  {
    j, o := c / (ss / 4), c * 4 % ss;
    DwordAt(t, ss, n, c, j, o, 0);
    forall w: nat ensures Flat(t[j := Store32(t[j], o, w)]) == Store32(Flat(t), c * 4, w) {
      DwordAt(t, ss, n, c, j, o, w);
    }
  }

  lemma LoadDword(t: seq<Sector>, ss: nat, n: nat, k: nat)
    requires WellSized(t, ss) && |t| == n && 4 <= ss
    requires k + 3 < n * ss && k % ss <= ss - 4
    ensures 0 <= k / ss < n && k + 4 <= |Flat(t)|
    ensures Load32(Flat(t), k) == Load32(t[k / ss], k % ss)
  {
    Following(k, ss, 2);
    LoadWithin(t, ss, n, k);
    LoadWithin(t, ss, n, k + 2);
  }

  lemma StoreDword(t: seq<Sector>, ss: nat, n: nat, k: nat, w: nat)
    requires WellSized(t, ss) && |t| == n && 4 <= ss
    requires k + 3 < n * ss && k % ss <= ss - 4
    ensures 0 <= k / ss < n && k + 4 <= |Flat(t)|
    ensures Flat(t[k / ss := Store32(t[k / ss], k % ss, w)]) == Store32(Flat(t), k, w)
  {
    var j, o := k / ss, k % ss;
    Following(k, ss, 2);
    StoreWithin(t, ss, n, k, w);
    var u := t[j := Store16(t[j], o, w)];
    StoreWithin(u, ss, n, k + 2, w / 0x1_0000);
    assert u[j := Store16(u[j], o + 2, w / 0x1_0000)] == t[j := Store32(t[j], o, w)];
  }

  lemma LoadWithin(t: seq<Sector>, ss: nat, n: nat, k: nat)
    requires WellSized(t, ss) && |t| == n && ss > 0
    requires k + 1 < n * ss && k % ss <= ss - 2
    ensures 0 <= k / ss < n && k + 2 <= |Flat(t)|
    ensures Load16(Flat(t), k) == Load16(t[k / ss], k % ss)
  {
    Following(k, ss, 1);
    ByteInSector(t, ss, n, k);
    ByteInSector(t, ss, n, k + 1);
  }

  lemma StoreWithin(t: seq<Sector>, ss: nat, n: nat, k: nat, w: nat)
    requires WellSized(t, ss) && |t| == n && ss > 0
    requires k + 1 < n * ss && k % ss <= ss - 2
    ensures 0 <= k / ss < n && k + 2 <= |Flat(t)|
    ensures Flat(t[k / ss := Store16(t[k / ss], k % ss, w)]) == Store16(Flat(t), k, w)
  {
    Following(k, ss, 1);
    var lo: Byte, hi: Byte := w % 0x100, w / 0x100 % 0x100;
    var j, o := k / ss, k % ss;
    ByteUpdate(t, ss, n, k, lo);
    var u := t[j := WithByte(t[j], o, lo)];
    ByteUpdate(u, ss, n, k + 1, hi);
    assert u[j := WithByte(u[j], o + 1, hi)] == t[j := Store16(t[j], o, w)];
  }

  lemma PutGetSame(t: FatType, b: seq<Byte>, c: nat, val: nat)
    requires Offset(t, c) + Width(t) <= |b|
    ensures Get(t, Put(t, b, c, val), c) == Masked(t, val)
  {
    match t
    case FAT12 => Pack12Same(c, b[c + c / 2], b[c + c / 2 + 1], val);
    case FAT16 => Load16Store16(b, c * 2, val);
    case FAT32 =>
      var before := Load32(b, c * 4);
      Merged(before, val);
      Load32Store32(b, c * 4, Merge32(before, val));
  }

  lemma Merged(before: nat, val: nat)
    requires before <= DWORD_MAX
    ensures Merge32(before, val) <= DWORD_MAX
    ensures Merge32(before, val) % 0x1000_0000 == val % 0x1000_0000
  {
    var u, r := before / 0x1000_0000, val % 0x1000_0000;
    assert u < 16 && before - before % 0x1000_0000 == u * 0x1000_0000;
  }

  lemma Nibbles(x: nat, q: nat, r: nat)
    requires x == q * 16 + r && r < 16
    ensures x / 16 == q && x % 16 == r
  {}

  lemma OddParts(t: nat, h: nat, r: nat, a: nat)
    requires h < 0x100 && r < 16 && a < 16
    ensures (a + r * 16 + 0x100 * h) / 16 == h * 16 + r
    ensures (t * 0x1000 + h * 16 + r) % 0x1000 == h * 16 + r
  {
    Nibbles(a + r * 16 + 0x100 * h, h * 16 + r, a);
    WithinUnit(t, 0x1000, h * 16 + r);
  }

  lemma EvenParts(t: nat, w: nat, r: nat, u: nat)
    requires w < 16 && r < 0x100
    ensures (r + 0x100 * (u * 16 + w)) % 0x1000 == w * 0x100 + r
    ensures (t * 0x1000 + w * 0x100 + r) % 0x1000 == w * 0x100 + r
  {
    WithinUnit(u, 0x1000, w * 0x100 + r);
    WithinUnit(t, 0x1000, w * 0x100 + r);
  }

  lemma Pack12Same(c: nat, lo: Byte, hi: Byte, val: nat)
    ensures Unpack12(c, Pack12Lo(c, lo, val), Pack12Hi(c, hi, val)) == val % 0x1000
  {
    if c % 2 == 1 {
      var q, r := val / 16, val % 16;
      OddParts(q / 0x100, q % 0x100, r, lo % 16);
    } else {
      var q, r := val / 0x100, val % 0x100;
      EvenParts(q / 16, q % 16, r, hi / 16);
    }
  }

  /** A FAT12 neighbour sharing a byte with entry c keeps its own half of that byte. */
  lemma Pack12Neighbour(c: nat, lo: Byte, hi: Byte, val: nat)
    ensures c % 2 == 0 ==> Pack12Hi(c, hi, val) / 16 == hi / 16
    ensures c % 2 == 1 ==> Pack12Lo(c, lo, val) % 16 == lo % 16
  {
    if c % 2 == 0 {
      Nibbles(Pack12Hi(c, hi, val), hi / 16, val / 0x100 % 16);
    } else {
      Nibbles(Pack12Lo(c, lo, val), val % 16, lo % 16);
    }
  }

  /** An even entry depends on the lower half of its second byte, an odd one on the upper half of its first. */
  lemma Unpack12Halves(c: nat, lo: Byte, hi: Byte, x: Byte)
    ensures c % 2 == 1 && x / 16 == lo / 16 ==> Unpack12(c, x, hi) == Unpack12(c, lo, hi)
    ensures c % 2 == 0 && x % 16 == hi % 16 ==> Unpack12(c, lo, x) == Unpack12(c, lo, hi)
  {
    if c % 2 == 1 {
      Nibbles(lo + 0x100 * hi, lo / 16 + hi * 16, lo % 16);
      Nibbles(x + 0x100 * hi, x / 16 + hi * 16, x % 16);
    } else {
      EvenParts(0, hi % 16, lo, hi / 16);
      EvenParts(0, x % 16, lo, x / 16);
    }
  }

  lemma PutGetOther(t: FatType, b: seq<Byte>, c: nat, val: nat, d: nat)
    requires Offset(t, c) + Width(t) <= |b| && Offset(t, d) + Width(t) <= |b|
    requires c != d
    ensures Get(t, Put(t, b, c, val), d) == Get(t, b, d)
  {
    if t == FAT12 {
      var o, p := c + c / 2, d + d / 2;
      if d == c + 1 && c % 2 == 0 {
        assert p == o + 1;
        Pack12Neighbour(c, b[o], b[o + 1], val);
        Unpack12Halves(d, b[p], b[p + 1], Pack12Hi(c, b[o + 1], val));
      } else if c == d + 1 && c % 2 == 1 {
        assert o == p + 1;
        Pack12Neighbour(c, b[o], b[o + 1], val);
        Unpack12Halves(d, b[p], b[p + 1], Pack12Lo(c, b[o], val));
      }
    }
  }

  /** Writing an entry is a point update of the sequence of entries. */
  lemma PutIsUpdate(t: FatType, b: seq<Byte>, n: nat, c: nat, val: nat)
    requires TableBytes(t, n) <= |b| && c < n
    ensures Offset(t, c) + Width(t) <= |b|
    ensures |Put(t, b, c, val)| == |b|
    ensures Entries(t, Put(t, b, c, val), n) == Entries(t, b, n)[c := Masked(t, val)]
  {
    EntryFits(t, c, n);
    PutGetSame(t, b, c, val);
    forall d: nat | d < n && d != c
      ensures Entries(t, Put(t, b, c, val), n)[d] == Entries(t, b, n)[d]
    {
      EntryFits(t, d, n);
      PutGetOther(t, b, c, val, d);
    }
  }

  // ---- The bits of an entry --------------------------------------------------------------

  /** The number that bytes stand for, lowest byte first. */
  function Little(b: seq<Byte>): nat { if b == [] then 0 else b[0] + 0x100 * Little(b[1..]) }

  lemma LittleTwo(b: seq<Byte>)
    requires |b| == 2
    ensures Little(b) == b[0] + 0x100 * (b[1] as int)
  {
    assert Little(b[1..]) == b[1] && b[1..][1..] == [];
  }

  lemma LittleThree(b: seq<Byte>)
    requires |b| == 3
    ensures Little(b) == b[0] + 0x100 * (b[1] as int) + 0x1_0000 * (b[2] as int)
  {
    LittleTwo(b[1..]);
  }

  lemma LittleFour(b: seq<Byte>)
    requires |b| == 4
    ensures Little(b) == b[0] + 0x100 * (b[1] as int) + 0x1_0000 * (b[2] as int) + 0x100_0000 * (b[3] as int)
  {
    LittleThree(b[1..]);
  }

  lemma LoadIsLittle(b: seq<Byte>, i: nat)
    ensures i + 2 <= |b| ==> Load16(b, i) == Little(b[i..i + 2])
    ensures i + 4 <= |b| ==> Load32(b, i) == Little(b[i..i + 4])
  {
    if i + 2 <= |b| {
      LittleTwo(b[i..i + 2]);
    }
    if i + 4 <= |b| {
      LittleFour(b[i..i + 4]);
    }
  }

  /** FAT12: three bytes are two entries, the even one in the lower half. */
  lemma EntryBits12(b: seq<Byte>, k: nat)
    requires 3 * k + 3 <= |b|
    ensures Offset(FAT12, 2 * k) == 3 * k && Offset(FAT12, 2 * k + 1) == 3 * k + 1
    ensures Get(FAT12, b, 2 * k) < 0x1000 && Get(FAT12, b, 2 * k + 1) < 0x1000
    ensures Get(FAT12, b, 2 * k) + 0x1000 * Get(FAT12, b, 2 * k + 1) == Little(b[3 * k..3 * k + 3])
  {
    var d := b[3 * k..3 * k + 3];
    LittleThree(d);
    var u, w: nat := d[1] as int / 16, d[1] as int % 16;
    assert 2 * k / 2 == k && (2 * k + 1) / 2 == k && (2 * k) % 2 == 0 && (2 * k + 1) % 2 == 1;
    EvenParts(0, w, d[0], u);
    Nibbles(d[1] + 0x100 * (d[2] as int), u + 16 * d[2], w);
  }

  /** FAT12: the last entry of an odd number of them is one byte and the lower half of the next. */
  lemma LastEntryBits12(b: seq<Byte>, k: nat)
    requires 3 * k + 2 <= |b|
    ensures Offset(FAT12, 2 * k) == 3 * k && Get(FAT12, b, 2 * k) == b[3 * k] + 0x100 * (b[3 * k + 1] as int % 16)
  {
    assert 2 * k / 2 == k && (2 * k) % 2 == 0;
    EvenParts(0, b[3 * k + 1] % 16, b[3 * k], b[3 * k + 1] / 16);
  }

  /** FAT16: an entry is two bytes. */
  lemma EntryBits16(b: seq<Byte>, c: nat)
    requires 2 * c + 2 <= |b|
    ensures Get(FAT16, b, c) == Little(b[2 * c..2 * c + 2])
  {
    LoadIsLittle(b, 2 * c);
  }

  /** FAT32: an entry is four bytes but for the upper half of the last one. */
  lemma EntryBits32(b: seq<Byte>, c: nat)
    requires 4 * c + 4 <= |b|
    ensures Get(FAT32, b, c) < 0x1000_0000
    ensures Get(FAT32, b, c) + 0x1000_0000 * (b[4 * c + 3] as int / 16) == Little(b[4 * c..4 * c + 4])
  {
    LoadIsLittle(b, 4 * c);
    var d := b[4 * c..4 * c + 4];
    LittleFour(d);
    var u, w: nat := d[3] as int / 16, d[3] as int % 16;
    WithinUnit(u, 0x1000_0000, d[0] + 0x100 * (d[1] as int) + 0x1_0000 * (d[2] as int) + 0x100_0000 * w);
  }

  /** An entry, byte by byte. */
  lemma EntryOfBytes(t: FatType, b: seq<Byte>, c: nat)
    requires Offset(t, c) + Width(t) <= |b|
    ensures var o := c + c / 2;
            t == FAT12 ==> Get(t, b, c) == if c % 2 == 0 then b[o] + 0x100 * (b[o + 1] as int % 16) else b[o] as int / 16 + 16 * (b[o + 1] as int)
    ensures t == FAT16 ==> Get(t, b, c) == b[2 * c] + 0x100 * (b[2 * c + 1] as int)
    ensures t == FAT32 ==>
              Get(t, b, c) == b[4 * c] + 0x100 * (b[4 * c + 1] as int) + 0x1_0000 * (b[4 * c + 2] as int)
                              + 0x100_0000 * (b[4 * c + 3] as int % 16)
  {
    if t == FAT12 {
      var lo, hi := b[c + c / 2], b[c + c / 2 + 1];
      EvenParts(0, hi as int % 16, lo, hi as int / 16);
      Nibbles(lo + 0x100 * (hi as int), lo as int / 16 + 16 * (hi as int), lo as int % 16);
    } else if t == FAT32 {
      var u, w: nat := b[4 * c + 3] as int / 16, b[4 * c + 3] as int % 16;
      WithinUnit(u, 0x1000_0000, b[4 * c] + 0x100 * (b[4 * c + 1] as int) + 0x1_0000 * (b[4 * c + 2] as int) + 0x100_0000 * w);
    }
  }

  /** Which bits of the table belong to entry c: byte i, its lower and its upper half. */
  predicate Owns(t: FatType, c: nat, i: nat, upper: bool) {
    match t
    case FAT12 => var x := 2 * i + if upper then 1 else 0; 3 * c <= x < 3 * c + 3
    case FAT16 => 2 * c <= i < 2 * c + 2
    case FAT32 => 4 * c <= i < 4 * c + 4 && !(i == 4 * c + 3 && upper)
  }

  function Half(x: nat, upper: bool): nat { if upper then x / 16 else x % 16 }

  /** Rewriting an entry keeps every bit that is not its own, the upper four bits of a FAT32 entry among them. */
  lemma PutKeepsBits(t: FatType, b: seq<Byte>, c: nat, val: nat, i: nat, upper: bool)
    requires Offset(t, c) + Width(t) <= |b| && i < |b| && !Owns(t, c, i, upper)
    ensures |Put(t, b, c, val)| == |b| && Half(Put(t, b, c, val)[i], upper) == Half(b[i], upper)
  {
    if t == FAT12 {
      var o := c + c / 2;
      Pack12Neighbour(c, b[o], b[o + 1], val);
      assert c % 2 == 0 ==> 2 * o == 3 * c;
      assert c % 2 == 1 ==> 2 * o + 1 == 3 * c;
    } else if t == FAT32 && i == 4 * c + 3 {
      LoadIsLittle(b, 4 * c);
      LittleFour(b[4 * c..4 * c + 4]);
      UpperKept(Load32(b, 4 * c), val);
      TopHalf(b[4 * c] + 0x100 * (b[4 * c + 1] as int) + 0x1_0000 * (b[4 * c + 2] as int), b[4 * c + 3]);
    }
  }

  lemma UpperKept(before: nat, val: nat)
    requires before <= DWORD_MAX
    ensures Merge32(before, val) / 0x1000_0000 == before / 0x1000_0000
    ensures Merge32(before, val) / 0x1_0000 / 0x100 % 0x100 / 16 == before / 0x1000_0000
  {
    var u, r := before / 0x1000_0000, val % 0x1000_0000;
    assert Merge32(before, val) == u * 0x1000_0000 + r;
    WithinUnit(u, 0x1000_0000, r);
    var p, q := r / 0x100_0000, r % 0x100_0000;
    assert Merge32(before, val) == (u * 16 + p) * 0x100_0000 + q;
    WithinUnit(u * 16 + p, 0x100_0000, q);
    Nibbles(u * 16 + p, u, p);
  }

  lemma TopHalf(low: nat, top: Byte)
    requires low < 0x100_0000
    ensures (low + 0x100_0000 * (top as int)) / 0x1000_0000 == top / 16
  {
    WithinUnit(top / 16, 0x1000_0000, low + 0x100_0000 * (top as int % 16));
  }

  /** Any number of a cluster of the volume, and the next two, can be stored. */
  lemma MaskKeeps(t: FatType, val: nat)
    requires val <= MaxClusters(t) + 1
    ensures Masked(t, val) == val
  {}
}
