/**
 The serial number in the security PIC.  Its seventeen digits are spread over
 four registers, each scaled and offset; the bytes of the registers are
 scrambled over sixteen external registers.  Decoding gathers the bytes, undoes
 the arithmetic and strips the digits one decimal place at a time.
 */
module Pic {
  import opened Machine

  // The encoding structure as bytes: four registers, most significant byte
  // first, then check10 and check2.
  const CHECK10 := 16
  const CHECK2 := 17
  const STRUCT_SIZE := 18

  const SERIAL_SIZE := 18
  const DIGITS := 17
  const ZERO: U8 := 48

  // Which byte of the structure each external register holds.
  const SERIAL_MAP: seq<Option<nat>> := [
    Some(6), Some(1), Some(CHECK2), Some(9), Some(15), None, Some(11), Some(4),
    Some(7), Some(3), Some(CHECK10), Some(2), Some(5), None, Some(10), Some(14)]

  // Which digit of the serial number each decimal place of a register is.
  const STRIP_INFO: seq<seq<int>> := [[-1, -1, 1, 7, 4], [2, 15, 0, 8, 6], [-1, 16, 3, 5, 14], [13, 12, 11, 10, 9]]

  const PLACE_VALUE: seq<nat> := [10000, 1000, 100, 10, 1]

  // ---------- decoding ----------

  // Store the external registers from i on in the structure.
  function GatherFrom(st: seq<U8>, external: seq<U8>, i: nat): (r: seq<U8>)
    requires |st| == STRUCT_SIZE && |external| == 16 && i <= 16
    ensures |r| == STRUCT_SIZE
    decreases 16 - i
  {
    if i == 16 then st
    else GatherFrom(if SERIAL_MAP[i].Some? then st[SERIAL_MAP[i].value := external[i]] else st, external, i + 1)
  }

  function Zeroes(n: nat, value: U8): (s: seq<U8>)
    ensures |s| == n && forall i | 0 <= i < n :: s[i] == value
  {
    seq(n, _ => value)
  }

  function At(st: seq<U8>, k: nat): nat
    requires k < |st|
  {
    st[k]
  }

  // A 32-bit register of the structure.
  function Word(st: seq<U8>, r: nat): U32
    requires |st| == STRUCT_SIZE && r < 4
  {
    0x1000000 * At(st, 4 * r) + 0x10000 * At(st, 4 * r + 1) + 0x100 * At(st, 4 * r + 2) + At(st, 4 * r + 3)
  }

  function Decode32(reg: U32, offset: U32, divisor: U16, negate: bool): U32
    requires divisor != 0
  {
    Wrap32(if negate then offset - reg else reg - offset) / divisor
  }

  // The four registers with the arithmetic undone.
  function Decoded(st: seq<U8>, r: nat): U32
    requires |st| == STRUCT_SIZE && r < 4
  {
    if r == 0 then Wrap32(Decode32(Word(st, 0), 0x1F3F0, 0x1BCD, false) - 5 * At(st, CHECK10))
    else if r == 1 then Wrap32(Decode32(Word(st, 1), 0x71E259, 0x107F, false) - (2 * At(st, CHECK10) + At(st, CHECK2)))
    else if r == 2 then Wrap32(Decode32(Word(st, 2), 0x3D74, 0x245, false) - At(st, CHECK2))
    else Decode32(Word(st, 3), 99999, 1, true)
  }

  // The digit at a decimal place, as text; the first one has whatever is left
  // over for it.
  function Digit(reg: U32, place: nat): U8
    requires place < 5
  {
    Wrap8(Wrap8((if place == 0 then reg else reg % PLACE_VALUE[place - 1]) / PLACE_VALUE[place]) + ZERO)
  }

  predicate Info(info: seq<int>) {
    |info| == 5 && forall k | 0 <= k < 5 :: info[k] == -1 || 0 <= info[k] < DIGITS
  }

  // Store the digits of a register, from a place on, where they belong.
  function StripFrom(sn: seq<U8>, reg: U32, info: seq<int>, place: nat): (r: seq<U8>)
    requires |sn| == SERIAL_SIZE && Info(info) && place <= 5
    ensures |r| == SERIAL_SIZE
    decreases 5 - place
  {
    if place == 5 then sn
    else StripFrom(if info[place] != -1 then sn[info[place] := Digit(reg, place)] else sn, reg, info, place + 1)
  }

  lemma StripInfoValid()
    ensures |STRIP_INFO| == 4 && forall r | 0 <= r < 4 :: Info(STRIP_INFO[r])
  {
  }

  function DecodeFrom(sn: seq<U8>, st: seq<U8>, r: nat): (d: seq<U8>)
    requires |sn| == SERIAL_SIZE && |st| == STRUCT_SIZE && r <= 4
    ensures |d| == SERIAL_SIZE
    decreases 4 - r
  {
    StripInfoValid();
    if r == 4 then sn else DecodeFrom(StripFrom(sn, Decoded(st, r), STRIP_INFO[r], 0), st, r + 1)
  }

  // The text of the serial number read from the external registers.
  function Decode(external: seq<U8>): (d: seq<U8>)
    requires |external| == 16
    ensures |d| == SERIAL_SIZE
  {
    DecodeFrom(Zeroes(SERIAL_SIZE, ZERO), GatherFrom(Zeroes(STRUCT_SIZE, 0), external, 0), 0)
  }

  // ---------- encoding ----------

  predicate Serial(s: seq<nat>) {
    |s| == DIGITS && forall i | 0 <= i < |s| :: s[i] <= 9
  }

  // The number whose decimal places are digits of the serial number.
  function Packed(s: seq<nat>, r: nat): nat
    requires Serial(s) && r < 4
  {
    if r == 0 then 100 * s[1] + 10 * s[7] + s[4]
    else if r == 1 then 10000 * s[2] + 1000 * s[15] + 100 * s[0] + 10 * s[8] + s[6]
    else if r == 2 then 1000 * s[16] + 100 * s[3] + 10 * s[5] + s[14]
    else 10000 * s[13] + 1000 * s[12] + 100 * s[11] + 10 * s[10] + s[9]
  }

  function Encoded(s: seq<nat>, check10: U8, check2: U8, r: nat): nat
    requires Serial(s) && r < 4
  {
    if r == 0 then (Packed(s, 0) + 5 * check10) * 0x1BCD + 0x1F3F0
    else if r == 1 then (Packed(s, 1) + 2 * check10 + check2) * 0x107F + 0x71E259
    else if r == 2 then (Packed(s, 2) + check2) * 0x245 + 0x3D74
    else 99999 - Packed(s, 3)
  }

  function ByteOf(x: nat, position: nat): U8
    requires position < 4
  {
    if position == 0 then Wrap8(x / 0x1000000) else if position == 1 then Wrap8(x / 0x10000)
    else if position == 2 then Wrap8(x / 0x100) else Wrap8(x)
  }

  function EncodedByte(s: seq<nat>, check10: U8, check2: U8, k: nat): U8
    requires Serial(s) && k < STRUCT_SIZE
  {
    if k == CHECK10 then check10 else if k == CHECK2 then check2
    else ByteOf(Encoded(s, check10, check2, k / 4), k % 4)
  }

  // What the PIC shows; two external registers hold anything.
  ghost predicate Shows(external: seq<U8>, s: seq<nat>, check10: U8, check2: U8)
    requires Serial(s)
  {
    |external| == 16 && forall i | 0 <= i < 16 ::
      SERIAL_MAP[i].Some? ==> external[i] == EncodedByte(s, check10, check2, SERIAL_MAP[i].value)
  }

  function Text(s: seq<nat>): (t: seq<U8>)
    requires Serial(s)
    ensures |t| == SERIAL_SIZE
  {
    seq(SERIAL_SIZE, i requires 0 <= i < SERIAL_SIZE => if i < DIGITS then s[i] + ZERO else ZERO)
  }

  // ---------- the bytes ----------

  // Which external register each byte of the structure is read from.
  const REGISTER_OF: seq<int> := [-1, 1, 11, 9, 7, 12, 0, 8, -1, 3, 14, 6, -1, -1, 15, 4, 10, 2]

  lemma MapInverse()
    ensures |SERIAL_MAP| == 16 && |REGISTER_OF| == STRUCT_SIZE
    ensures forall i | 0 <= i < 16 && SERIAL_MAP[i].Some? ::
      SERIAL_MAP[i].value < STRUCT_SIZE && REGISTER_OF[SERIAL_MAP[i].value] == i
    ensures forall k | 0 <= k < STRUCT_SIZE && REGISTER_OF[k] != -1 ::
      0 <= REGISTER_OF[k] < 16 && SERIAL_MAP[REGISTER_OF[k]] == Some(k)
  {
  }

  // What storing the registers from i on leaves in a byte of the structure.
  function Stored(st: seq<U8>, external: seq<U8>, i: nat, k: nat): U8
    requires |st| == STRUCT_SIZE && |external| == 16 && k < STRUCT_SIZE
  {
    MapInverse();
    if REGISTER_OF[k] >= i then external[REGISTER_OF[k]] else st[k]
  }

  lemma StoredStep(st: seq<U8>, external: seq<U8>, i: nat, k: nat)
    requires |st| == STRUCT_SIZE && |external| == 16 && i < 16 && k < STRUCT_SIZE
    ensures SERIAL_MAP[i].Some? ==> SERIAL_MAP[i].value < STRUCT_SIZE
    ensures var next := if SERIAL_MAP[i].Some? then st[SERIAL_MAP[i].value := external[i]] else st;
      Stored(next, external, i + 1, k) == Stored(st, external, i, k)
  {
    MapInverse();
  }

  // Every byte of the structure comes from its register, or stays as it was.
  lemma {:induction false} GatherFromIs(st: seq<U8>, external: seq<U8>, i: nat)
    requires |st| == STRUCT_SIZE && |external| == 16 && i <= 16
    ensures forall k | 0 <= k < STRUCT_SIZE :: GatherFrom(st, external, i)[k] == Stored(st, external, i, k)
    decreases 16 - i
  {
    if i == 16 {
      MapInverse();
    } else {
      var next := if SERIAL_MAP[i].Some? then st[SERIAL_MAP[i].value := external[i]] else st;
      assert GatherFrom(st, external, i) == GatherFrom(next, external, i + 1);
      GatherFromIs(next, external, i + 1);
      hide Stored, GatherFrom;
      forall k | 0 <= k < STRUCT_SIZE ensures GatherFrom(st, external, i)[k] == Stored(st, external, i, k) {
        StoredStep(st, external, i, k);
      }
    }
  }

  lemma BytesOf(x: nat, a: U8, b: U8, c: U8, d: U8)
    requires x == 0x1000000 * (a as int) + 0x10000 * (b as int) + 0x100 * (c as int) + d
    ensures ByteOf(x, 0) == a && ByteOf(x, 1) == b && ByteOf(x, 2) == c && ByteOf(x, 3) == d
  {
    var ai: int, bi: int, ci: int, di: int := a, b, c, d;
    DivModUnique(x, 0x1000000, ai, 0x10000 * bi + 0x100 * ci + di);
    DivModUnique(x, 0x10000, 0x100 * ai + bi, 0x100 * ci + di);
    DivModUnique(x, 0x100, 0x10000 * ai + 0x100 * bi + ci, di);
    DivModUnique(ai, 0x100, 0, ai);
    DivModUnique(0x100 * ai + bi, 0x100, ai, bi);
    DivModUnique(0x10000 * ai + 0x100 * bi + ci, 0x100, 0x100 * ai + bi, ci);
  }

  // The bytes of a register make it up again.
  lemma BytesRejoin(x: nat)
    requires x < 0x1_0000_0000
    ensures 0x1000000 * (ByteOf(x, 0) as int) + 0x10000 * (ByteOf(x, 1) as int) + 0x100 * (ByteOf(x, 2) as int) + ByteOf(x, 3) == x
  {
    var q, r := x / 0x1000000, x % 0x1000000;
    var s := r % 0x10000;
    BytesOf(x, q, r / 0x10000, s / 0x100, s % 0x100);
  }

  // What the structure holds after gathering what the PIC shows: the upper
  // bytes of the shorter registers are zero.
  lemma Gathered(external: seq<U8>, s: seq<nat>, check10: U8, check2: U8)
    requires Serial(s) && Shows(external, s, check10, check2)
    ensures var st := GatherFrom(Zeroes(STRUCT_SIZE, 0), external, 0);
      forall k | 0 <= k < STRUCT_SIZE :: st[k] == if k in {0, 8, 12, 13} then 0 else EncodedByte(s, check10, check2, k)
  {
    MapInverse();
    GatherFromIs(Zeroes(STRUCT_SIZE, 0), external, 0);
    hide EncodedByte, GatherFrom;
    forall k | 0 <= k < STRUCT_SIZE
      ensures GatherFrom(Zeroes(STRUCT_SIZE, 0), external, 0)[k]
        == if k in {0, 8, 12, 13} then 0 else EncodedByte(s, check10, check2, k)
    {
      assert REGISTER_OF[k] == -1 <==> k in {0, 8, 12, 13};
      if REGISTER_OF[k] != -1 { assert SERIAL_MAP[REGISTER_OF[k]] == Some(k); }
    }
  }

  lemma EncodedBytes(s: seq<nat>, check10: U8, check2: U8, r: nat, p: nat)
    requires Serial(s) && r < 4 && p < 4
    ensures EncodedByte(s, check10, check2, 4 * r + p) == ByteOf(Encoded(s, check10, check2, r), p)
  {
    DivModUnique(4 * r + p, 4, r, p);
  }

  // All the sums fit in 32 bits, and the first and third in 24.
  lemma EncodedFits(s: seq<nat>, check10: U8, check2: U8)
    requires Serial(s)
    ensures Encoded(s, check10, check2, 0) < 0x1000000 && Encoded(s, check10, check2, 1) < 0x1_0000_0000
    ensures Encoded(s, check10, check2, 2) < 0x1000000 && Encoded(s, check10, check2, 3) < 0x20000
    ensures Packed(s, 0) < 1000 && Packed(s, 1) < 100000 && Packed(s, 2) < 10000 && Packed(s, 3) < 100000
  {
  }

  // The registers read back are the ones encoded, except that the last has
  // only sixteen bits.
  lemma WordsRead(external: seq<U8>, s: seq<nat>, check10: U8, check2: U8, r: nat)
    requires Serial(s) && Shows(external, s, check10, check2) && r < 4
    ensures var st := GatherFrom(Zeroes(STRUCT_SIZE, 0), external, 0); var x := Encoded(s, check10, check2, r);
      && Word(st, r) == (if r == 3 then x % 0x10000 else x)
      && st[CHECK10] == check10 && st[CHECK2] == check2
  {
    Gathered(external, s, check10, check2);
    EncodedFits(s, check10, check2);
    var st := GatherFrom(Zeroes(STRUCT_SIZE, 0), external, 0);
    EncodedBytes(s, check10, check2, r, 0);
    EncodedBytes(s, check10, check2, r, 1);
    EncodedBytes(s, check10, check2, r, 2);
    EncodedBytes(s, check10, check2, r, 3);
    hide Encoded, ByteOf, GatherFrom, Word;
    WordOf(st, r, Encoded(s, check10, check2, r));
  }

  lemma WordOf(st: seq<U8>, r: nat, x: nat)
    requires |st| == STRUCT_SIZE && r < 4 && x < (if r == 1 then 0x1_0000_0000 else if r == 3 then 0x20000 else 0x1000000)
    requires st[4 * r] == (if r == 1 then ByteOf(x, 0) else 0)
    requires st[4 * r + 1] == (if r == 3 then 0 else ByteOf(x, 1))
    requires st[4 * r + 2] == ByteOf(x, 2) && st[4 * r + 3] == ByteOf(x, 3)
    ensures Word(st, r) == (if r == 3 then x % 0x10000 else x)
  {
    BytesRejoin(x);
    hide ByteOf;
    var a: int, b: int, c: int, d: int := ByteOf(x, 0), ByteOf(x, 1), ByteOf(x, 2), ByteOf(x, 3);
    if r == 3 { DivModUnique(x, 0x10000, 0x100 * a + b, 0x100 * c + d); }
  }

  // ---------- the arithmetic ----------

  // Scaling and offset are undone exactly.
  lemma Unscaled(d: nat, divisor: U16, offset: U32)
    requires divisor != 0 && d * divisor + offset < 0x1_0000_0000
    ensures Decode32(d * divisor + offset, offset, divisor, false) == d
  {
    DivModUnique(d * divisor, 0x1_0000_0000, 0, d * divisor);
    DivModUnique(d * divisor, divisor, d, 0);
  }

  lemma Wraps32(x: int)
    requires 0 <= x < 0x1_0000_0000
    ensures Wrap32(x) == x
  {
    DivModUnique(x, 0x1_0000_0000, 0, x);
  }

  // The number in each register is recovered, except that the last one comes
  // out 65536 too big if it does not fit in sixteen bits.
  lemma Undone(external: seq<U8>, s: seq<nat>, check10: U8, check2: U8, r: nat)
    requires Serial(s) && Shows(external, s, check10, check2) && r < 4
    ensures var st := GatherFrom(Zeroes(STRUCT_SIZE, 0), external, 0); var d := Packed(s, r);
      Decoded(st, r) == if r == 3 && d < 34464 then d + 0x10000 else d
  {
    WordsRead(external, s, check10, check2, r);
    EncodedFits(s, check10, check2);
    var st := GatherFrom(Zeroes(STRUCT_SIZE, 0), external, 0);
    var d := Packed(s, r);
    hide Packed, GatherFrom, Word;
    UndoneWord(st, d, r);
  }

  lemma UndoneWord(st: seq<U8>, d: nat, r: nat)
    requires |st| == STRUCT_SIZE && r < 4 && d <= 99999
    requires var c10, c2 := At(st, CHECK10), At(st, CHECK2);
      Word(st, r) == if r == 0 then (d + 5 * c10) * 0x1BCD + 0x1F3F0
        else if r == 1 then (d + 2 * c10 + c2) * 0x107F + 0x71E259
        else if r == 2 then (d + c2) * 0x245 + 0x3D74
        else (99999 - d) % 0x10000
    ensures Decoded(st, r) == if r == 3 && d < 34464 then d + 0x10000 else d
  {
    hide Word, Decode32;
    var c10, c2 := At(st, CHECK10), At(st, CHECK2);
    Wraps32(d);
    if r == 0 {
      Unscaled(d + 5 * c10, 0x1BCD, 0x1F3F0);
    } else if r == 1 {
      Unscaled(d + 2 * c10 + c2, 0x107F, 0x71E259);
    } else if r == 2 {
      Unscaled(d + c2, 0x245, 0x3D74);
    } else {
      LastUndone(d);
    }
  }

  lemma LastUndone(d: nat)
    requires d <= 99999
    ensures Decode32((99999 - d) % 0x10000, 99999, 1, true) == if d < 34464 then d + 0x10000 else d
  {
    var x := 99999 - d;
    DivModUnique(x, 0x10000, if d < 34464 then 1 else 0, if d < 34464 then x - 0x10000 else x);
    Wraps32(99999 - x % 0x10000);
  }

  // ---------- the digits ----------

  // The register and the decimal place each digit of the serial number comes from.
  const ROW_OF: seq<nat> := [1, 0, 1, 2, 0, 2, 1, 0, 1, 3, 3, 3, 3, 3, 2, 1, 2]
  const PLACE_OF: seq<nat> := [2, 2, 0, 2, 4, 3, 4, 3, 3, 4, 3, 2, 1, 0, 4, 1, 1]

  lemma PlacesInverse()
    ensures |ROW_OF| == DIGITS && |PLACE_OF| == DIGITS
    ensures forall p | 0 <= p < DIGITS :: ROW_OF[p] < 4 && PLACE_OF[p] < 5 && STRIP_INFO[ROW_OF[p]][PLACE_OF[p]] == p
    ensures forall r, k | 0 <= r < 4 && 0 <= k < 5 && STRIP_INFO[r][k] != -1 ::
      0 <= STRIP_INFO[r][k] < DIGITS && ROW_OF[STRIP_INFO[r][k]] == r && PLACE_OF[STRIP_INFO[r][k]] == k
  {
  }

  // What stripping the places from one on leaves at a position.
  function Stripped(sn: seq<U8>, reg: U32, r: nat, place: nat, p: nat): U8
    requires |sn| == SERIAL_SIZE && p < SERIAL_SIZE
  {
    PlacesInverse();
    if p < DIGITS && ROW_OF[p] == r && PLACE_OF[p] >= place then Digit(reg, PLACE_OF[p]) else sn[p]
  }

  // Stripping a register writes the positions that are its own, each once.
  lemma {:induction false} StripFromIs(sn: seq<U8>, reg: U32, r: nat, place: nat)
    requires |sn| == SERIAL_SIZE && r < 4 && place <= 5 && Info(STRIP_INFO[r])
    ensures forall p | 0 <= p < SERIAL_SIZE ::
      StripFrom(sn, reg, STRIP_INFO[r], place)[p] == Stripped(sn, reg, r, place, p)
    decreases 5 - place
  {
    hide Digit;
    PlacesInverse();
    if place < 5 {
      var at := STRIP_INFO[r][place];
      StripFromIs(if at != -1 then sn[at := Digit(reg, place)] else sn, reg, r, place + 1);
    }
  }

  // Whatever the PIC shows, every position 0..16 gets its own decimal place of
  // its own register, and the position after them stays a zero.
  lemma {:induction false} DecodeFromIs(sn: seq<U8>, st: seq<U8>, r: nat)
    requires |sn| == SERIAL_SIZE && |st| == STRUCT_SIZE && r <= 4
    ensures forall p | 0 <= p < SERIAL_SIZE :: (DecodeFrom(sn, st, r)[p] ==
      if p < DIGITS && ROW_OF[p] >= r then Digit(Decoded(st, ROW_OF[p]), PLACE_OF[p]) else sn[p])
    decreases 4 - r
  {
    hide Digit, Decoded, StripFrom;
    PlacesInverse();
    StripInfoValid();
    if r < 4 {
      StripFromIs(sn, Decoded(st, r), r, 0);
      DecodeFromIs(StripFrom(sn, Decoded(st, r), STRIP_INFO[r], 0), st, r + 1);
    }
  }

  // The value of the digit at a place.
  function PlaceDigit(x: nat, k: nat): nat
    requires k < 5
  {
    (if k == 0 then x else x % PLACE_VALUE[k - 1]) / PLACE_VALUE[k]
  }

  // The decimal places of a number are its digits.
  lemma Places(x: nat, a: nat, b: nat, c: nat, d: nat, e: nat)
    requires a <= 9 && b <= 9 && c <= 9 && d <= 9 && e <= 9
    requires x == 10000 * a + 1000 * b + 100 * c + 10 * d + e
    ensures PlaceDigit(x, 0) == a && PlaceDigit(x, 1) == b && PlaceDigit(x, 2) == c
    ensures PlaceDigit(x, 3) == d && PlaceDigit(x, 4) == e
  {
    DivModUnique(x, 10000, a, 1000 * b + 100 * c + 10 * d + e);
    DivModUnique(x % 10000, 1000, b, 100 * c + 10 * d + e);
    DivModUnique(x, 1000, 10 * a + b, 100 * c + 10 * d + e);
    DivModUnique(x % 1000, 100, c, 10 * d + e);
    DivModUnique(x, 100, 100 * a + 10 * b + c, 10 * d + e);
    DivModUnique(x % 100, 10, d, e);
    DivModUnique(x, 10, 1000 * a + 100 * b + 10 * c + d, e);
    DivModUnique(e, 1, e, 0);
  }

  // A number under 100000 is made of its places, each a digit.
  lemma FromPlaces(x: nat)
    requires x < 100000
    ensures forall k | 0 <= k < 5 :: PlaceDigit(x, k) <= 9
    ensures x == 10000 * PlaceDigit(x, 0) + 1000 * PlaceDigit(x, 1) + 100 * PlaceDigit(x, 2)
      + 10 * PlaceDigit(x, 3) + PlaceDigit(x, 4)
  {
    var a, w := x / 10000, x % 10000;
    var b, y := w / 1000, w % 1000;
    var c, z := y / 100, y % 100;
    Places(x, a, b, c, z / 10, z % 10);
  }

  lemma DigitText(x: U32, k: nat)
    requires k < 5 && PlaceDigit(x, k) <= 9
    ensures Digit(x, k) == PlaceDigit(x, k) + ZERO
  {
    DivModUnique(PlaceDigit(x, k), 0x100, 0, PlaceDigit(x, k));
    DivModUnique(PlaceDigit(x, k) + ZERO, 0x100, 0, PlaceDigit(x, k) + ZERO);
  }

  // The digits packed in a register are found at their places.
  lemma PackedPlaces(s: seq<nat>, p: nat)
    requires Serial(s) && p < DIGITS
    ensures PlaceDigit(Packed(s, ROW_OF[p]), PLACE_OF[p]) == s[p]
  {
    PlacesInverse();
    if ROW_OF[p] == 0 {
      Places(Packed(s, 0), 0, 0, s[1], s[7], s[4]);
    } else if ROW_OF[p] == 1 {
      Places(Packed(s, 1), s[2], s[15], s[0], s[8], s[6]);
    } else if ROW_OF[p] == 2 {
      Places(Packed(s, 2), 0, s[16], s[3], s[5], s[14]);
    } else {
      Places(Packed(s, 3), s[13], s[12], s[11], s[10], s[9]);
    }
  }

  // The digit decoded at a position.
  lemma DecodedDigit(external: seq<U8>, s: seq<nat>, check10: U8, check2: U8, p: nat)
    requires Serial(s) && Shows(external, s, check10, check2) && p < DIGITS
    ensures var d := Packed(s, ROW_OF[p]);
      var x := if ROW_OF[p] == 3 && d < 34464 then d + 0x10000 else d;
      Decode(external)[p] == PlaceDigit(x, PLACE_OF[p]) + ZERO
  {
    hide Packed, Digit, Decoded, PlaceDigit, GatherFrom, DecodeFrom;
    PlacesInverse();
    DecodeFromIs(Zeroes(SERIAL_SIZE, ZERO), GatherFrom(Zeroes(STRUCT_SIZE, 0), external, 0), 0);
    Undone(external, s, check10, check2, ROW_OF[p]);
    EncodedFits(s, check10, check2);
    var d := Packed(s, ROW_OF[p]);
    var x := if ROW_OF[p] == 3 && d < 34464 then d + 0x10000 else d;
    FromPlaces(x);
    DigitText(x, PLACE_OF[p]);
  }

  // The position after the serial number is not written.
  lemma DecodedEnd(external: seq<U8>)
    requires |external| == 16
    ensures Decode(external)[DIGITS] == ZERO
  {
    DecodeFromIs(Zeroes(SERIAL_SIZE, ZERO), GatherFrom(Zeroes(STRUCT_SIZE, 0), external, 0), 0);
    hide DecodeFrom, GatherFrom;
  }

  // A number changed by 65536 has some other digit.
  lemma SomeDigitDiffers(d: nat)
    requires d < 34464
    ensures exists k | 0 <= k < 5 :: PlaceDigit(d + 0x10000, k) != PlaceDigit(d, k)
  {
    hide PlaceDigit;
    FromPlaces(d);
    FromPlaces(d + 0x10000);
  }

  lemma DecodeRight(external: seq<U8>, s: seq<nat>, check10: U8, check2: U8, p: nat)
    requires Serial(s) && Shows(external, s, check10, check2) && p < DIGITS
    requires ROW_OF[p] == 3 ==> Packed(s, 3) >= 34464
    ensures Decode(external)[p] == Text(s)[p]
  {
    hide Packed, PlaceDigit, Decode;
    DecodedDigit(external, s, check10, check2, p);
    PackedPlaces(s, p);
  }

  lemma DecodeWrong(external: seq<U8>, s: seq<nat>, check10: U8, check2: U8)
    requires Serial(s) && Shows(external, s, check10, check2) && Packed(s, 3) < 34464
    ensures Decode(external) != Text(s)
  {
    PlacesInverse();
    hide Packed, PlaceDigit, Decode;
    var d := Packed(s, 3);
    SomeDigitDiffers(d);
    var k :| 0 <= k < 5 && PlaceDigit(d + 0x10000, k) != PlaceDigit(d, k);
    var p := STRIP_INFO[3][k];
    DecodedDigit(external, s, check10, check2, p);
    PackedPlaces(s, p);
    assert Decode(external)[p] != Text(s)[p];
  }

  // For every pair of check bytes, decoding what the PIC shows gives the
  // serial number back exactly if the number made of digits 13, 12, 11, 10 and
  // 9 is at least 34464; the other digits are right in any case.
  lemma DecodeIff(external: seq<U8>, s: seq<nat>, check10: U8, check2: U8)
    requires Serial(s) && Shows(external, s, check10, check2)
    ensures Decode(external) == Text(s) <==> Packed(s, 3) >= 34464
    ensures forall p | 0 <= p < DIGITS && ROW_OF[p] != 3 :: Decode(external)[p] == Text(s)[p]
  {
    hide Packed, Decode;
    forall p | 0 <= p < DIGITS && (ROW_OF[p] != 3 || Packed(s, 3) >= 34464)
      ensures Decode(external)[p] == Text(s)[p]
    {
      DecodeRight(external, s, check10, check2, p);
    }
    DecodedEnd(external);
    if Packed(s, 3) < 34464 { DecodeWrong(external, s, check10, check2); }
  }

  // ---------- what goes wrong otherwise ----------

  // The registers of a PIC that holds a serial number.
  function External(s: seq<nat>, check10: U8, check2: U8): (external: seq<U8>)
    requires Serial(s)
    ensures Shows(external, s, check10, check2)
  {
    MapInverse();
    seq(16, i requires 0 <= i < 16 =>
      if SERIAL_MAP[i].Some? then EncodedByte(s, check10, check2, SERIAL_MAP[i].value) else 0)
  }

  function AllZero(): (s: seq<nat>)
    ensures Serial(s) && forall i | 0 <= i < DIGITS :: s[i] == 0
  {
    seq(DIGITS, _ => 0)
  }

  lemma NothingPacked()
    ensures Packed(AllZero(), 3) == 0
  {
    hide AllZero;
  }

  // It happens: the serial number of seventeen zeroes is read with 65536 in
  // digits 13, 12, 11, 10 and 9, whatever the check bytes.
  lemma ZeroesMisread(check10: U8, check2: U8)
    ensures var d := Decode(External(AllZero(), check10, check2));
      d[13] == 6 + ZERO && d[12] == 5 + ZERO && d[11] == 5 + ZERO && d[10] == 3 + ZERO && d[9] == 6 + ZERO
  {
    hide Packed, Decode, Shows, PlaceDigit, External, AllZero;
    var s := AllZero();
    var external := External(s, check10, check2);
    NothingPacked();
    Places(0x10000, 6, 5, 5, 3, 6);
    assert ROW_OF[9] == ROW_OF[10] == ROW_OF[11] == ROW_OF[12] == ROW_OF[13] == 3;
    DecodedDigit(external, s, check10, check2, 13);
    DecodedDigit(external, s, check10, check2, 12);
    DecodedDigit(external, s, check10, check2, 11);
    DecodedDigit(external, s, check10, check2, 10);
    DecodedDigit(external, s, check10, check2, 9);
  }
}
