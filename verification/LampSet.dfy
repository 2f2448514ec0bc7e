/**
 Lamp sets: a bitmap with one bit per lamp, stored as four 16-bit words.
 The operations work word by word; their contracts speak about sets of lamp
 numbers.
 */
module LampSets {

  const NUM_LAMPS := 64

  type Words = ws: seq<bv16> | |ws| == 4 witness [0, 0, 0, 0]

  function LowMask(k: nat): (m: bv16)
    requires k < 8
    ensures m != 0 && m & (m - 1) == 0 && m & 0xff == m
  {
    if k == 0 then 0x01 else if k == 1 then 0x02
    else if k == 2 then 0x04 else if k == 3 then 0x08
    else if k == 4 then 0x10 else if k == 5 then 0x20
    else if k == 6 then 0x40 else 0x80
  }

  // The word with only bit k set.
  function Mask(k: nat): (m: bv16)
    requires k < 16
    ensures IsMask(m)
  {
    if k < 8 then LowMask(k) else LowMask(k - 8) << 8
  }

  predicate IsMask(m: bv16) { m != 0 && m & (m - 1) == 0 }

  predicate Bit(x: bv16, m: bv16) { x & m != 0 }

  // The word-wise operations of the loops.
  function Or(x: bv16, y: bv16): bv16 { x | y }

  function And(x: bv16, y: bv16): bv16 { x & y }

  function AndNot(x: bv16, y: bv16): bv16 { x & !y }

  predicate Lit(ws: Words, lamp: nat)
    requires lamp < NUM_LAMPS
  {
    Bit(ws[lamp / 16], Mask(lamp % 16))
  }

  // The lamps a bitmap stands for.
  function Lamps(ws: Words): set<nat> {
    set l: nat | l < NUM_LAMPS && Lit(ws, l)
  }

  lemma OneBit(x: bv16, y: bv16, m: bv16)
    requires IsMask(m)
    ensures Bit(Or(x, y), m) <==> Bit(x, m) || Bit(y, m)
    ensures Bit(And(x, y), m) <==> Bit(x, m) && Bit(y, m)
    ensures Bit(AndNot(x, y), m) <==> Bit(x, m) && !Bit(y, m)
  {
    MaskedWord(x, y, m);
  }

  lemma MaskedWord(x: bv16, y: bv16, m: bv16)
    requires m != 0 && m & (m - 1) == 0
    ensures (x | y) & m != 0 <==> x & m != 0 || y & m != 0
    ensures (x & y) & m != 0 <==> x & m != 0 && y & m != 0
    ensures (x & !y) & m != 0 <==> x & m != 0 && y & m == 0
  {
  }

  lemma ZeroWord(z: bv16)
    ensures z == 0 <==> forall k: nat | k < 16 :: !Bit(z, Mask(k))
  {
    if forall k: nat | k < 16 :: !Bit(z, Mask(k)) {
      assert z & Mask(0) == 0 && z & Mask(1) == 0 && z & Mask(2) == 0 && z & Mask(3) == 0;
      assert z & Mask(4) == 0 && z & Mask(5) == 0 && z & Mask(6) == 0 && z & Mask(7) == 0;
      assert z & Mask(8) == 0 && z & Mask(9) == 0 && z & Mask(10) == 0 && z & Mask(11) == 0;
      assert z & Mask(12) == 0 && z & Mask(13) == 0 && z & Mask(14) == 0 && z & Mask(15) == 0;
    }
  }

  // The bitmap that holds a word-wise combination of two others.
  function Union(a: Words, b: Words): Words {
    seq(4, w requires 0 <= w < 4 => Or(a[w], b[w]))
  }

  function Difference(a: Words, b: Words): Words {
    seq(4, w requires 0 <= w < 4 => AndNot(a[w], b[w]))
  }

  lemma OneWord(a: Words, b: Words, w: nat)
    requires w < 4
    ensures Union(a, b)[w] == Or(a[w], b[w]) && Difference(a, b)[w] == AndNot(a[w], b[w])
  {
  }

  lemma WordOps(a: Words, b: Words)
    ensures Lamps(Union(a, b)) == Lamps(a) + Lamps(b)
    ensures Lamps(Difference(a, b)) == Lamps(a) - Lamps(b)
  {
    hide Lit, Union, Difference;
    forall l: nat | l < NUM_LAMPS
      ensures Lit(Union(a, b), l) <==> Lit(a, l) || Lit(b, l)
      ensures Lit(Difference(a, b), l) <==> Lit(a, l) && !Lit(b, l)
    {
      LampOps(a, b, l);
    }
  }

  lemma LampOps(a: Words, b: Words, l: nat)
    requires l < NUM_LAMPS
    ensures Lit(Union(a, b), l) <==> Lit(a, l) || Lit(b, l)
    ensures Lit(Difference(a, b), l) <==> Lit(a, l) && !Lit(b, l)
  {
    hide Mask, Union, Difference, Bit, IsMask, Or, AndNot;
    OneWord(a, b, l / 16);
    OneBit(a[l / 16], b[l / 16], Mask(l % 16));
  }

  method Add(dst: array<bv16>, src: Words)
    requires dst.Length == 4
    modifies dst
    ensures Lamps(dst[..]) == old(Lamps(dst[..])) + Lamps(src)
  {
    hide Lamps, Lit;
    ghost var was: Words := dst[..];
    dst[0] := dst[0] | src[0];
    dst[1] := dst[1] | src[1];
    dst[2] := dst[2] | src[2];
    dst[3] := dst[3] | src[3];
    assert dst[..] == Union(was, src);
    WordOps(was, src);
  }

  method Subtract(dst: array<bv16>, src: Words)
    requires dst.Length == 4
    modifies dst
    ensures Lamps(dst[..]) == old(Lamps(dst[..])) - Lamps(src)
  {
    hide Lamps, Lit;
    ghost var was: Words := dst[..];
    dst[0] := dst[0] & !src[0];
    dst[1] := dst[1] & !src[1];
    dst[2] := dst[2] & !src[2];
    dst[3] := dst[3] & !src[3];
    assert dst[..] == Difference(was, src);
    WordOps(was, src);
  }

  method Zero(dst: array<bv16>)
    requires dst.Length == 4
    modifies dst
    ensures Lamps(dst[..]) == {}
  {
    dst[0], dst[1], dst[2], dst[3] := 0, 0, 0, 0;
    forall l: nat | l < NUM_LAMPS ensures !Lit(dst[..], l) {
      assert dst[l / 16] == 0;
    }
  }

  // Sets every byte to 0xFF.
  method Fill(dst: array<bv16>)
    requires dst.Length == 4
    modifies dst
    ensures Lamps(dst[..]) == AllLamps()
  {
    dst[0], dst[1], dst[2], dst[3] := 0xffff, 0xffff, 0xffff, 0xffff;
    forall l: nat | l < NUM_LAMPS ensures Lit(dst[..], l) {
      assert dst[l / 16] == 0xffff;
    }
  }

  predicate IsLamp(l: nat) { l < NUM_LAMPS }

  function AllLamps(): set<nat> {
    set l: nat | l < NUM_LAMPS && IsLamp(l)
  }

  // The words ored into one accumulator.
  function OrAll(ws: Words): bv16 {
    ws[0] | ws[1] | ws[2] | ws[3]
  }

  // The bitmaps of the lamps in both sets, and of those in the second only.
  function Common(a: Words, b: Words): Words {
    seq(4, w requires 0 <= w < 4 => And(a[w], b[w]))
  }

  function Missing(a: Words, b: Words): Words {
    seq(4, w requires 0 <= w < 4 => AndNot(b[w], a[w]))
  }

  lemma OrIsZero(a: bv16, b: bv16, c: bv16, d: bv16)
    ensures a | b | c | d == 0 <==> a == 0 && b == 0 && c == 0 && d == 0
  {
  }

  // Every bit of every word is a lamp.
  lemma NoBits(ws: Words)
    ensures Lamps(ws) == {} <==> forall w: nat, k: nat | w < 4 && k < 16 :: !Bit(ws[w], Mask(k))
  {
    hide Mask, Bit, IsMask;
    if w: nat, k: nat :| w < 4 && k < 16 && Bit(ws[w], Mask(k)) {
      assert (16 * w + k) / 16 == w && (16 * w + k) % 16 == k;
      assert Lit(ws, 16 * w + k);
      assert 16 * w + k in Lamps(ws);
    } else {
      forall l: nat | l < NUM_LAMPS ensures !Lit(ws, l) {
        assert !Bit(ws[l / 16], Mask(l % 16));
      }
    }
  }

  lemma AllZero(ws: Words)
    ensures OrAll(ws) == 0 <==> forall w: nat | w < 4 :: ws[w] == 0
  {
    OrIsZero(ws[0], ws[1], ws[2], ws[3]);
  }

  // The accumulator is zero exactly when the bitmap holds no lamp.
  lemma NoLamps(ws: Words)
    ensures OrAll(ws) == 0 <==> Lamps(ws) == {}
  {
    hide *;
    AllZero(ws);
    NoBits(ws);
    forall w: nat | w < 4 ensures ws[w] == 0 <==> forall k: nat | k < 16 :: !Bit(ws[w], Mask(k)) {
      ZeroWord(ws[w]);
    }
  }

  lemma PairOfWords(a: Words, b: Words, w: nat)
    requires w < 4
    ensures Common(a, b)[w] == And(a[w], b[w]) && Missing(a, b)[w] == AndNot(b[w], a[w])
  {
  }

  lemma WordPairs(a: Words, b: Words)
    ensures Lamps(Common(a, b)) == Lamps(a) * Lamps(b)
    ensures Lamps(Missing(a, b)) == Lamps(b) - Lamps(a)
  {
    hide Lit, Common, Missing;
    forall l: nat | l < NUM_LAMPS
      ensures Lit(Common(a, b), l) <==> Lit(a, l) && Lit(b, l)
      ensures Lit(Missing(a, b), l) <==> !Lit(a, l) && Lit(b, l)
    {
      LampPairs(a, b, l);
    }
  }

  lemma LampPairs(a: Words, b: Words, l: nat)
    requires l < NUM_LAMPS
    ensures Lit(Common(a, b), l) <==> Lit(a, l) && Lit(b, l)
    ensures Lit(Missing(a, b), l) <==> !Lit(a, l) && Lit(b, l)
  {
    hide Mask, Common, Missing, Bit, IsMask, And, AndNot;
    PairOfWords(a, b, l / 16);
    OneBit(a[l / 16], b[l / 16], Mask(l % 16));
    OneBit(b[l / 16], a[l / 16], Mask(l % 16));
  }

  lemma SetTests(x: set<nat>, y: set<nat>)
    ensures x !! y <==> x * y == {}
    ensures y <= x <==> y - x == {}
  {
    assert x * y == {} ==> forall e | e in x :: e !in x * y;
    assert y - x == {} ==> forall e | e in y :: e !in y - x;
  }

  // The accumulated words decide disjointness and inclusion.
  lemma WordTests(a: Words, b: Words)
    ensures (a[0] & b[0]) | (a[1] & b[1]) | (a[2] & b[2]) | (a[3] & b[3]) == 0 <==> Lamps(a) !! Lamps(b)
    ensures (!a[0] & b[0]) | (!a[1] & b[1]) | (!a[2] & b[2]) | (!a[3] & b[3]) == 0 <==> Lamps(b) <= Lamps(a)
  {
    DisjointTest(a, b);
    IncludedTest(a, b);
    hide *;
  }

  lemma DisjointTest(a: Words, b: Words)
    ensures (a[0] & b[0]) | (a[1] & b[1]) | (a[2] & b[2]) | (a[3] & b[3]) == 0 <==> Lamps(a) !! Lamps(b)
  {
    SetTests(Lamps(a), Lamps(b));
    WordPairs(a, b);
    NoLamps(Common(a, b));
  }

  lemma IncludedTest(a: Words, b: Words)
    ensures (!a[0] & b[0]) | (!a[1] & b[1]) | (!a[2] & b[2]) | (!a[3] & b[3]) == 0 <==> Lamps(b) <= Lamps(a)
  {
    SetTests(Lamps(a), Lamps(b));
    WordPairs(a, b);
    NoLamps(Missing(a, b));
  }

  method Disjoint(a: Words, b: Words) returns (r: bool)
    ensures r <==> Lamps(a) !! Lamps(b)
  {
    var x: bv16 := a[0] & b[0];
    x := x | (a[1] & b[1]);
    x := x | (a[2] & b[2]);
    x := x | (a[3] & b[3]);
    SetTests(Lamps(a), Lamps(b));
    WordPairs(a, b);
    NoLamps(Common(a, b));
    return x == 0;
  }

  // Whether the lamps of b are all among those of a.
  method CanBeAdded(a: Words, b: Words) returns (r: bool)
    ensures r <==> Lamps(b) <= Lamps(a)
  {
    var x: bv16 := !a[0] & b[0];
    x := x | (!a[1] & b[1]);
    x := x | (!a[2] & b[2]);
    x := x | (!a[3] & b[3]);
    SetTests(Lamps(a), Lamps(b));
    WordPairs(a, b);
    NoLamps(Missing(a, b));
    return x == 0;
  }
}
