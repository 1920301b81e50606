/** Bytes, sectors, and sequences of sectors laid end to end. */
module Sectors {
  type Byte = x: int | 0 <= x < 256

  type Sector = seq<Byte>

  /** All sectors of an image have the sector size. */
  ghost predicate WellSized(v: seq<Sector>, ss: nat) {
    forall s :: 0 <= s < |v| ==> |v[s]| == ss
  }

  function WithByte(s: Sector, i: nat, x: Byte): Sector
    requires i < |s|
  {
    s[i := x]
  }

  /** The bytes of a sequence of sectors. */
  function Flat(t: seq<Sector>): seq<Byte> {
    if t == [] then [] else t[0] + Flat(t[1..])
  }

  /**
  A name for the verifier: facts about products are stated under a quantifier that only this
  predicate triggers, so that a proof meets them where it says `assert Unfold(0)`.
  */
  ghost predicate Unfold(u: int) { true }

  lemma DivMod(k: nat, d: nat)
    requires d > 0
    ensures k == k / d * d + k % d && 0 <= k % d < d
  {}

  lemma DivLess(x: nat, d: nat, n: nat)
    requires d > 0
    ensures x < n * d <==> x / d < n
  {
    var q := x / d;
    DivMod(x, d);
    if q < n {
      MulMono(q + 1, n, d);
      assert (q + 1) * d == q * d + d;
    } else {
      MulMono(n, q, d);
    }
  }

  /** Byte k of n sectors lies in a sector below n. */
  lemma SectorOfByte(k: nat, n: nat, ss: nat)
    requires ss > 0 && k < n * ss
    ensures k / ss < n && k == k / ss * ss + k % ss
  {
    DivLess(k, ss, n);
  }

  lemma {:induction false} FlatLength(t: seq<Sector>, ss: nat)
    requires WellSized(t, ss)
    ensures |Flat(t)| == |t| * ss
  {
    if t != [] {
      FlatLength(t[1..], ss);
      assert (|t| - 1) * ss + ss == |t| * ss;
    }
  }

  lemma {:induction false} FlatAt(t: seq<Sector>, ss: nat, j: nat, o: nat)
    requires WellSized(t, ss) && j < |t| && o < ss
    ensures j * ss + o < |Flat(t)|
    ensures Flat(t)[j * ss + o] == t[j][o]
  {
    FlatLength(t, ss);
    if j > 0 {
      FlatAt(t[1..], ss, j - 1, o);
      assert (j - 1) * ss + ss == j * ss;
    }
  }

  lemma {:induction false} FlatUpdate(t: seq<Sector>, ss: nat, j: nat, o: nat, x: Byte)
    requires WellSized(t, ss) && j < |t| && o < ss
    ensures j * ss + o < |Flat(t)|
    ensures Flat(t[j := WithByte(t[j], o, x)]) == Flat(t)[j * ss + o := x]
  {
    FlatAt(t, ss, j, o);
    var w := t[j := WithByte(t[j], o, x)];
    if j == 0 {
      assert w[1..] == t[1..];
    } else {
      FlatUpdate(t[1..], ss, j - 1, o, x);
      assert w[1..] == t[1..][j - 1 := WithByte(t[j], o, x)];
      assert (j - 1) * ss + ss == j * ss;
    }
  }

  /** Where byte k of the laid-out sectors lives. */
  lemma ByteInSector(t: seq<Sector>, ss: nat, n: nat, k: nat)
    requires WellSized(t, ss) && |t| == n && ss > 0 && k < n * ss
    ensures 0 <= k / ss < n && 0 <= k % ss < ss && k < |Flat(t)|
    ensures Flat(t)[k] == t[k / ss][k % ss]
  {
    SectorOfByte(k, n, ss);
    FlatAt(t, ss, k / ss, k % ss);
  }

  lemma ByteUpdate(t: seq<Sector>, ss: nat, n: nat, k: nat, x: Byte)
    requires WellSized(t, ss) && |t| == n && ss > 0 && k < n * ss
    ensures 0 <= k / ss < n && 0 <= k % ss < ss && k < |Flat(t)|
    ensures Flat(t[k / ss := WithByte(t[k / ss], k % ss, x)]) == Flat(t)[k := x]
  {
    SectorOfByte(k, n, ss);
    FlatUpdate(t, ss, k / ss, k % ss, x);
  }

  lemma MulMono(a: nat, b: nat, u: nat)
    requires a <= b
    ensures a * u <= b * u
  {}

  lemma QuotientMono(x: nat, y: nat, d: nat)
    requires x <= y && d > 0
    ensures x / d <= y / d
  {
    var p, r := x / d, y / d;
    DivMod(x, d);
    DivMod(y, d);
    assert (r + 1) * d == r * d + d;
    if p > r {
      MulMono(r + 1, p, d);
    }
  }

  /** Quotient and remainder are determined by their defining equation. */
  lemma WithinUnit(q: nat, u: nat, r: nat)
    requires r < u
    ensures (q * u + r) / u == q && (q * u + r) % u == r
  {
    var x := q * u + r;
    var p, t := x / u, x % u;
    DivMod(x, u);
    assert (q + 1) * u == q * u + u && (p + 1) * u == p * u + u;
    if p > q {
      MulMono(q + 1, p, u);
    } else if p < q {
      MulMono(p + 1, q, u);
    }
  }

  /** Doubling a number and its divisor. */
  lemma Doubled(c: nat, d: nat)
    requires d > 0
    ensures c * 2 / (d * 2) == c / d
    ensures 0 <= c * 2 % (d * 2) <= d * 2 - 2
  {
    var q, r := c / d, c % d;
    DivMod(c, d);
    assert q * (d * 2) == (q * d) * 2;
    WithinUnit(q, d * 2, r * 2);
  }

  lemma Quadrupled(c: nat, d: nat)
    requires d > 0
    ensures c * 4 / (d * 4) == c / d
    ensures 0 <= c * 4 % (d * 4) <= d * 4 - 4
  {
    var q, r := c / d, c % d;
    DivMod(c, d);
    assert q * (d * 4) == (q * d) * 4;
    WithinUnit(q, d * 4, r * 4);
  }

  /** Bytes following k in the same sector. */
  lemma Following(k: nat, ss: nat, i: nat)
    requires ss > 0 && k % ss + i < ss
    ensures (k + i) / ss == k / ss && (k + i) % ss == k % ss + i
  {
    var q, r := k / ss, k % ss;
    DivMod(k, ss);
    WithinUnit(q, ss, r + i);
  }
}
