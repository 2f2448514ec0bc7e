/**
 Scores are strings of binary-coded decimal, most significant byte first.
 Adding works byte by byte from the right with a decimal adjust after each
 step, in two versions: the 6809 instruction, which knows whether there was a
 carry out of the low digit, and the native routine, which looks only at the sum.
 */
module Scores {
  import opened Machine

  datatype Cpu = M6809 | Native

  type Carry = c: nat | c <= 1

  predicate IsBcd(b: U8) { b / 16 <= 9 && b % 16 <= 9 }

  predicate Valid(s: seq<U8>) { forall i | 0 <= i < |s| :: IsBcd(s[i]) }

  function ByteValue(b: U8): nat { 10 * (b / 16) + b % 16 }

  // The number a score stands for.
  function Value(s: seq<U8>): nat {
    if s == [] then 0 else 100 * Value(s[..|s| - 1]) + ByteValue(s[|s| - 1])
  }

  function Pow100(n: nat): (p: nat)
    ensures p > 0
  {
    if n == 0 then 1 else 100 * Pow100(n - 1)
  }

  // ---------- comparing ----------

  function Sign(x: int): int { if x > 0 then 1 else if x < 0 then -1 else 0 }

  // The first pair of bytes that differ decides.
  function Compare(a: seq<U8>, b: seq<U8>): int
    requires |a| == |b|
  {
    if a == [] then 0 else if a[0] != b[0] then (if a[0] > b[0] then 1 else -1) else Compare(a[1..], b[1..])
  }

  lemma {:induction false} CompareLast(a: seq<U8>, b: seq<U8>, x: U8, y: U8)
    requires |a| == |b|
    ensures Compare(a + [x], b + [y]) == if Compare(a, b) != 0 then Compare(a, b) else Sign(x - y)
  {
    if a != [] {
      CompareLast(a[1..], b[1..], x, y);
      assert (a + [x])[1..] == a[1..] + [x] && (b + [y])[1..] == b[1..] + [y];
    } else {
      assert (a + [x])[1..] == [] && (b + [y])[1..] == [];
    }
  }

  lemma {:induction false} ValueBound(s: seq<U8>)
    requires Valid(s)
    ensures Value(s) < Pow100(|s|)
  {
    if s != [] { ValueBound(s[..|s| - 1]); }
  }

  lemma ByteOrder(x: U8, y: U8)
    requires IsBcd(x) && IsBcd(y)
    ensures Sign(x - y) == Sign(ByteValue(x) - ByteValue(y)) && ByteValue(x) < 100 && ByteValue(y) < 100
  {
    var xh, xl, yh, yl := x / 16, x % 16, y / 16, y % 16;
    assert x == 16 * xh + xl && y == 16 * yh + yl;
  }

  lemma LastDecides(u: nat, v: nat, x: U8, y: U8)
    requires ByteValue(x) < 100 && ByteValue(y) < 100
    ensures Sign(100 * u + ByteValue(x) - (100 * v + ByteValue(y)))
      == if u != v then Sign(u - v) else Sign(ByteValue(x) - ByteValue(y))
  {
  }

  // On valid scores of the same width the byte order is the numeric order.
  lemma {:induction false} CompareIsNumeric(a: seq<U8>, b: seq<U8>)
    requires |a| == |b| && Valid(a) && Valid(b)
    ensures Compare(a, b) == Sign(Value(a) - Value(b))
  {
    if a != [] {
      var n := |a| - 1;
      CompareIsNumeric(a[..n], b[..n]);
      CompareLast(a[..n], b[..n], a[n], b[n]);
      assert a == a[..n] + [a[n]] && b == b[..n] + [b[n]];
      ByteOrder(a[n], b[n]);
      LastDecides(Value(a[..n]), Value(b[..n]), a[n], b[n]);
    }
  }

  // ---------- adding ----------

  // The native adjustment of a binary sum, with the carry it reports.
  function Daa(x: U8): (U8, Carry) {
    var low := if x % 16 >= 10 then Wrap8(x + 6) else x;
    if low / 16 >= 10 then (Wrap8(low + 0x60), 1) else (low, 0)
  }

  // One byte of an addition: the sum and the carry out.
  function AddByte(cpu: Cpu, a: U8, b: U8, c: Carry): (U8, Carry) {
    match cpu
    case Native => Daa(Wrap8(a + b + c))
    case M6809 => Adjust(a % 16 + b % 16 + c >= 16, a + b + c)
  }

  // The adjust instruction after a binary addition, whose half carry and
  // carry flags take part.
  function Adjust(half: bool, sum: nat): (U8, Carry) {
    var low, high := sum % 16, sum % 256 / 16;
    var fix := (if half || low > 9 then 6 else 0)
      + (if sum >= 256 || high > 9 || (high > 8 && low > 9) then 0x60 else 0);
    (Wrap8(sum + fix), if sum >= 256 || sum % 256 + fix >= 256 then 1 else 0)
  }

  // The sum, keeping the width, and the carry out.
  function Add(cpu: Cpu, a: seq<U8>, b: seq<U8>): (r: (seq<U8>, Carry))
    requires |a| == |b|
    ensures |r.0| == |a|
  {
    if a == [] then ([], 0)
    else
      var rest := Add(cpu, a[1..], b[1..]);
      var (x, c) := AddByte(cpu, a[0], b[0], rest.1);
      ([x] + rest.0, c)
  }

  // The bytes from i on have been added, those before are still those of a.
  predicate AddedFrom(cpu: Cpu, a: seq<U8>, b: seq<U8>, now: seq<U8>, carry: Carry, i: nat)
    requires |a| == |b| && i <= |a|
  {
    |now| == |a| && now[..i] == a[..i] && (now[i..], carry) == Add(cpu, a[i..], b[i..])
  }

  lemma NothingAdded(cpu: Cpu, a: seq<U8>, b: seq<U8>)
    requires |a| == |b|
    ensures AddedFrom(cpu, a, b, a, 0, |a|)
  {
    assert a[|a|..] == [] && b[|b|..] == [];
  }

  lemma AddStep(cpu: Cpu, a: seq<U8>, b: seq<U8>, now: seq<U8>, carry: Carry, i: nat)
    requires |a| == |b| && i < |a| && AddedFrom(cpu, a, b, now, carry, i + 1)
    ensures |now| == |a|
    ensures var (x, c) := AddByte(cpu, now[i], b[i], carry); AddedFrom(cpu, a, b, now[i := x], c, i)
  {
    hide AddByte;
    assert a[i..][1..] == a[i + 1..] && b[i..][1..] == b[i + 1..] && now[i] == now[..i + 1][i] == a[i];
    var x := AddByte(cpu, now[i], b[i], carry).0;
    assert now[i := x][i..] == [x] + now[i + 1..] && now[..i] == now[..i + 1][..i];
  }

  lemma AllAdded(cpu: Cpu, a: seq<U8>, b: seq<U8>, now: seq<U8>, carry: Carry)
    requires |a| == |b| && AddedFrom(cpu, a, b, now, carry, 0)
    ensures now == Add(cpu, a, b).0
  {
    assert a[0..] == a && b[0..] == b && now[0..] == now;
  }

  // What the adjustment misses when the high digits add up to s and the low
  // digits, with the carry in, to t: natively the carry out of a sum of sixteen
  // or more goes unnoticed.
  function DigitLoss(cpu: Cpu, s: nat, t: nat): nat {
    if cpu.M6809? then 0
    else (if t >= 16 then 6 else 0) + (if s + (if t >= 10 then 1 else 0) >= 16 then 160 else 0)
  }

  function ByteLoss(cpu: Cpu, a: U8, b: U8, c: Carry): nat {
    DigitLoss(cpu, a / 16 + b / 16, a % 16 + b % 16 + c)
  }

  lemma Nibbles(h: nat, l: nat)
    requires l < 16
    ensures (16 * h + l) / 16 == h && (16 * h + l) % 16 == l
  {
    DivModUnique(16 * h + l, 16, h, l);
  }

  lemma Wraps(x: int, r: nat)
    requires r < 0x100 && (x == r || x == 0x100 + r)
    ensures Wrap8(x) == r
  {
    DivModUnique(x, 0x100, if x == r then 0 else 1, r);
  }

  // What the native adjustment does to the two digits of a sum.
  lemma DaaDigits(h: nat, l: nat)
    requires h < 16 && l < 10
    ensures Daa(16 * h + l) == if h >= 10 then (16 * (h - 10) + l, 1) else (16 * h + l, 0)
  {
    Nibbles(h, l);
    if h >= 10 { Wraps(16 * h + l + 0x60, 16 * (h - 10) + l); }
  }

  lemma DaaLowDigit(h: nat, l: nat)
    requires h < 16 && 10 <= l < 16
    ensures Daa(16 * h + l) == if h == 15 then (l - 10, 0) else Daa(16 * (h + 1) + l - 10)
  {
    Nibbles(h, l);
    Nibbles(0, l - 10);
    if h == 15 {
      Wraps(16 * h + l + 6, l - 10);
    } else {
      Wraps(16 * h + l + 6, 16 * (h + 1) + l - 10);
      Nibbles(h + 1, l - 10);
    }
  }

  // The result of the native addition when the high digits add up to s and
  // the low digits, with the carry in, to t.
  function NativeDigits(s: nat, t: nat): (nat, nat, Carry) {
    var l := if t >= 16 then t - 16 else if t >= 10 then t - 10 else t;
    var h := if t >= 10 then s + 1 else s;
    if h >= 16 then (h - 16, l, 0) else if h >= 10 then (h - 10, l, 1) else (h, l, 0)
  }

  lemma NativeSum(s: nat, t: nat)
    requires s <= 18 && t <= 19
    ensures var (h, l, c) := NativeDigits(s, t); Daa(Wrap8(16 * s + t)) == (16 * h + l, c)
  {
    hide Daa;
    var l, h := if t >= 16 then t - 16 else t, if t >= 16 then s + 1 else s;
    assert 16 * s + t == 16 * h + l;
    var r := if h >= 16 then h - 16 else h;
    Wraps(16 * h + l, 16 * r + l);
    hide Wrap8;
    if l >= 10 {
      DaaLowDigit(r, l);
      if r != 15 { DaaDigits(r + 1, l - 10); }
    } else {
      DaaDigits(r, l);
    }
  }

  // A byte of a sum is made of decimal digits, and with its carry it falls
  // short by the loss.
  predicate ByteAdded(cpu: Cpu, a: U8, b: U8, c: Carry) {
    var (x, carry) := AddByte(cpu, a, b, c);
    IsBcd(x) && ByteValue(x) + 100 * carry + ByteLoss(cpu, a, b, c) == ByteValue(a) + ByteValue(b) + c
  }

  lemma FromDigits(cpu: Cpu, ah: nat, al: nat, bh: nat, bl: nat, c: Carry, h: nat, l: nat, carry: Carry)
    requires ah <= 9 && al <= 9 && bh <= 9 && bl <= 9 && h <= 9 && l <= 9
    requires AddByte(cpu, 16 * ah + al, 16 * bh + bl, c) == (16 * h + l, carry)
    requires 100 * carry + 10 * h + l + DigitLoss(cpu, ah + bh, al + bl + c) == 10 * (ah + bh) + al + bl + c
    ensures ByteAdded(cpu, 16 * ah + al, 16 * bh + bl, c)
  {
    hide AddByte, DigitLoss, ByteLoss, ByteValue, IsBcd;
    DigitsValue(ah, al);
    DigitsValue(bh, bl);
    DigitsValue(h, l);
    DigitsLoss(cpu, ah, al, bh, bl, c);
  }

  lemma DigitsValue(h: nat, l: nat)
    requires h <= 9 && l <= 9
    ensures IsBcd(16 * h + l) && ByteValue(16 * h + l) == 10 * h + l
  {
    Nibbles(h, l);
  }

  lemma DigitsLoss(cpu: Cpu, ah: nat, al: nat, bh: nat, bl: nat, c: Carry)
    requires ah <= 9 && al <= 9 && bh <= 9 && bl <= 9
    ensures ByteLoss(cpu, 16 * ah + al, 16 * bh + bl, c) == DigitLoss(cpu, ah + bh, al + bl + c)
  {
    hide DigitLoss;
    Nibbles(ah, al);
    Nibbles(bh, bl);
  }

  lemma NativeLoss(s: nat, t: nat)
    requires s <= 18 && t <= 19
    ensures var (h, l, c) := NativeDigits(s, t);
      h <= 9 && l <= 9 && 100 * c + 10 * h + l + DigitLoss(Native, s, t) == 10 * s + t
  {
  }

  lemma NativeByte(ah: nat, al: nat, bh: nat, bl: nat, c: Carry)
    requires ah <= 9 && al <= 9 && bh <= 9 && bl <= 9
    ensures ByteAdded(Native, 16 * ah + al, 16 * bh + bl, c)
  {
    hide Daa, NativeDigits, DigitLoss, ByteAdded;
    var s, t := ah + bh, al + bl + c;
    NativeSum(s, t);
    NativeLoss(s, t);
    var (h, l, carry) := NativeDigits(s, t);
    assert 16 * ah + al + (16 * bh + bl) + c == 16 * s + t;
    FromDigits(Native, ah, al, bh, bl, c, h, l, carry);
  }

  lemma AdjustDigits(half: bool, high: nat, low: nat)
    requires high < 20 && low < 16 && (half ==> low <= 3)
    ensures var l, h := if half then low + 6 else if low > 9 then low - 10 else low, if !half && low > 9 then high + 1 else high;
      Adjust(half, 16 * high + low) == if h >= 10 then (16 * (h - 10) + l, 1) else (16 * h + l, 0)
  {
    var l, h := if half then low + 6 else if low > 9 then low - 10 else low, if !half && low > 9 then high + 1 else high;
    var top := if high >= 16 then high - 16 else high;
    Nibbles(high, low);
    Wraps(16 * high + low, 16 * top + low);
    Nibbles(top, low);
    var r := if h >= 10 then 16 * (h - 10) + l else 16 * h + l;
    Wraps(if h >= 10 then 0x100 + r else r, r);
  }

  function HardwareDigits(s: nat, t: nat): (nat, nat, Carry) {
    var l, h := if t >= 10 then t - 10 else t, if t >= 10 then s + 1 else s;
    if h >= 10 then (h - 10, l, 1) else (h, l, 0)
  }

  lemma HardwareSum(s: nat, t: nat)
    requires s <= 18 && t <= 19
    ensures var (h, l, c) := HardwareDigits(s, t); Adjust(t >= 16, 16 * s + t) == (16 * h + l, c)
  {
    var half := t >= 16;
    var high, low := if half then s + 1 else s, if half then t - 16 else t;
    AdjustDigits(half, high, low);
    assert 16 * s + t == 16 * high + low;
    hide Adjust;
  }

  lemma HardwareByte(ah: nat, al: nat, bh: nat, bl: nat, c: Carry)
    requires ah <= 9 && al <= 9 && bh <= 9 && bl <= 9
    ensures ByteAdded(M6809, 16 * ah + al, 16 * bh + bl, c)
  {
    var s, t := ah + bh, al + bl + c;
    var (h, l, carry) := HardwareDigits(s, t);
    Nibbles(ah, al);
    Nibbles(bh, bl);
    HardwareSum(s, t);
    hide Adjust;
    assert 16 * ah + al + (16 * bh + bl) + c == 16 * s + t;
    FromDigits(M6809, ah, al, bh, bl, c, h, l, carry);
  }

  // What one byte of a sum is, on both processors.
  lemma AddByteLoses(cpu: Cpu, a: U8, b: U8, c: Carry)
    requires IsBcd(a) && IsBcd(b)
    ensures ByteAdded(cpu, a, b, c)
  {
    if cpu.Native? { NativeByte(a / 16, a % 16, b / 16, b % 16, c); } else { HardwareByte(a / 16, a % 16, b / 16, b % 16, c); }
  }

  // ---------- whole scores ----------

  function Scaled(x: nat, p: nat): nat { x * p }

  // What all the bytes of a sum lose together.
  function Loss(cpu: Cpu, a: seq<U8>, b: seq<U8>): nat
    requires |a| == |b|
  {
    if a == [] then 0
    else Scaled(ByteLoss(cpu, a[0], b[0], Add(cpu, a[1..], b[1..]).1), Pow100(|a| - 1)) + Loss(cpu, a[1..], b[1..])
  }

  // No two digits make sixteen or more with the carry that reaches them, or
  // the processor does not mind.
  predicate SumsFit(cpu: Cpu, a: seq<U8>, b: seq<U8>)
    requires |a| == |b|
  {
    a == [] || (SumsFit(cpu, a[1..], b[1..]) && ByteLoss(cpu, a[0], b[0], Add(cpu, a[1..], b[1..]).1) == 0)
  }

  lemma {:induction false} ValueFirst(x: U8, s: seq<U8>)
    ensures Value([x] + s) == ByteValue(x) * Pow100(|s|) + Value(s)
  {
    var t := [x] + s;
    if s != [] {
      ValueFirst(x, s[..|s| - 1]);
      assert t[..|t| - 1] == [x] + s[..|s| - 1];
      Times100(ByteValue(x), Pow100(|s| - 1));
    } else {
      assert t[..0] == [];
    }
  }

  lemma Times100(x: nat, p: nat)
    ensures 100 * (x * p) == x * (100 * p)
  {
  }

  // A sum is made of decimal digits in any case.
  lemma {:induction false} AddValid(cpu: Cpu, a: seq<U8>, b: seq<U8>)
    requires |a| == |b| && Valid(a) && Valid(b)
    ensures Valid(Add(cpu, a, b).0)
  {
    if a != [] {
      AddValid(cpu, a[1..], b[1..]);
      FirstByte(cpu, a, b);
      hide AddByte, IsBcd, ByteValue, ByteLoss;
    }
  }

  // The first byte of a sum, whose carry in comes from the rest.
  lemma FirstByte(cpu: Cpu, a: seq<U8>, b: seq<U8>)
    requires |a| == |b| && a != [] && IsBcd(a[0]) && IsBcd(b[0])
    ensures var (r, c) := Add(cpu, a, b); var k := Add(cpu, a[1..], b[1..]).1;
      && r == [r[0]] + Add(cpu, a[1..], b[1..]).0
      && IsBcd(r[0])
      && ByteValue(r[0]) + 100 * c + ByteLoss(cpu, a[0], b[0], k) == ByteValue(a[0]) + ByteValue(b[0]) + k
  {
    hide IsBcd, AddByte, ByteValue, ByteLoss;
    AddByteLoses(cpu, a[0], b[0], Add(cpu, a[1..], b[1..]).1);
  }

  lemma Unfolded(s: seq<U8>)
    requires s != []
    ensures Value(s) == ByteValue(s[0]) * Pow100(|s| - 1) + Value(s[1..])
  {
    assert s == [s[0]] + s[1..];
    ValueFirst(s[0], s[1..]);
  }

  // The sum of the first bytes z with their loss and carries, and that of the
  // rest, put together.
  lemma Joined(p: nat, x: nat, y: nat, z: nat, c: Carry, loss: nat, k: Carry, v: nat, rest: nat, restLoss: nat)
    requires z + 100 * c + loss == x + y + k && v + k * p + restLoss == rest
    ensures z * p + v + c * (100 * p) + (Scaled(loss, p) + restLoss) == x * p + y * p + rest
  {
    assert (z + 100 * c + loss) * p == (x + y + k) * p;
    assert (z + 100 * c + loss) * p == z * p + c * (100 * p) + loss * p;
    assert (x + y + k) * p == x * p + y * p + k * p;
  }

  // A sum with its carry falls short by exactly the loss.
  lemma {:induction false} SumExact(cpu: Cpu, a: seq<U8>, b: seq<U8>)
    requires |a| == |b| && Valid(a) && Valid(b)
    ensures var (r, c) := Add(cpu, a, b);
      Value(r) + c * Pow100(|a|) + Loss(cpu, a, b) == Value(a) + Value(b)
    decreases |a|
  {
    if a == [] {
      assert Value([]) == 0;
    } else {
      SumExact(cpu, a[1..], b[1..]);
      SumExtended(cpu, a, b);
    }
    hide *;
  }

  lemma SumExtended(cpu: Cpu, a: seq<U8>, b: seq<U8>)
    requires |a| == |b| && a != [] && Valid(a) && Valid(b)
    requires var (r, c) := Add(cpu, a[1..], b[1..]);
      Value(r) + c * Pow100(|a| - 1) + Loss(cpu, a[1..], b[1..]) == Value(a[1..]) + Value(b[1..])
    ensures var (r, c) := Add(cpu, a, b);
      Value(r) + c * Pow100(|a|) + Loss(cpu, a, b) == Value(a) + Value(b)
  {
    var (r, c) := Add(cpu, a, b);
    var (rest, k) := Add(cpu, a[1..], b[1..]);
    var p, loss := Pow100(|a| - 1), ByteLoss(cpu, a[0], b[0], k);
    assert Loss(cpu, a, b) == Scaled(loss, p) + Loss(cpu, a[1..], b[1..]) && Pow100(|a|) == 100 * p;
    FirstByte(cpu, a, b);
    assert r[0..] == r && r[1..] == rest;
    hide *;
    Unfolded(a);
    Unfolded(b);
    Unfolded(r);
    Joined(p, ByteValue(a[0]), ByteValue(b[0]), ByteValue(r[0]), c, loss, k, Value(rest),
           Value(a[1..]) + Value(b[1..]), Loss(cpu, a[1..], b[1..]));
  }

  // Adding scores falls short of addition modulo the width by the loss.
  lemma AddLoses(cpu: Cpu, a: seq<U8>, b: seq<U8>)
    requires |a| == |b| && Valid(a) && Valid(b)
    ensures Valid(Add(cpu, a, b).0)
    ensures Value(Add(cpu, a, b).0) == (Value(a) + Value(b) - Loss(cpu, a, b)) % Pow100(|a|)
  {
    hide *;
    SumExact(cpu, a, b);
    AddValid(cpu, a, b);
    var (r, c) := Add(cpu, a, b);
    ValueBound(r);
    TopCarry(Value(r), c, Pow100(|a|), Value(a) + Value(b) - Loss(cpu, a, b));
  }

  lemma TopCarry(v: nat, c: Carry, p: nat, sum: int)
    requires v < p && v + c * p == sum
    ensures sum % p == v
  {
    DivModUnique(sum, p, c, v);
  }

  lemma DigitLossValues(cpu: Cpu, s: nat, t: nat)
    ensures DigitLoss(cpu, s, t) % 100 == 0 <==> DigitLoss(cpu, s, t) == 0
  {
  }

  // A loss cannot hide in the carry: the lowest byte that loses is wrong.
  lemma {:induction false} LossIff(cpu: Cpu, a: seq<U8>, b: seq<U8>)
    requires |a| == |b|
    ensures Loss(cpu, a, b) % Pow100(|a|) == 0 <==> SumsFit(cpu, a, b)
    ensures SumsFit(cpu, a, b) ==> Loss(cpu, a, b) == 0
    decreases |a|
  {
    if a == [] {
      assert Pow100(0) == 1 && Loss(cpu, a, b) == 0;
    } else {
      LossIff(cpu, a[1..], b[1..]);
      LossExtended(cpu, a, b);
    }
    hide *;
  }

  lemma LossExtended(cpu: Cpu, a: seq<U8>, b: seq<U8>)
    requires |a| == |b| && a != []
    requires Loss(cpu, a[1..], b[1..]) % Pow100(|a| - 1) == 0 <==> SumsFit(cpu, a[1..], b[1..])
    requires SumsFit(cpu, a[1..], b[1..]) ==> Loss(cpu, a[1..], b[1..]) == 0
    ensures Loss(cpu, a, b) % Pow100(|a|) == 0 <==> SumsFit(cpu, a, b)
    ensures SumsFit(cpu, a, b) ==> Loss(cpu, a, b) == 0
  {
    var k, p := Add(cpu, a[1..], b[1..]).1, Pow100(|a| - 1);
    var loss, rest := ByteLoss(cpu, a[0], b[0], k), Loss(cpu, a[1..], b[1..]);
    assert Loss(cpu, a, b) == Scaled(loss, p) + rest && Pow100(|a|) == 100 * p;
    assert SumsFit(cpu, a, b) <==> SumsFit(cpu, a[1..], b[1..]) && loss == 0;
    DigitLossValues(cpu, a[0] / 16 + b[0] / 16, a[0] % 16 + b[0] % 16 + k);
    assert loss % 100 == 0 <==> loss == 0;
    hide *;
    NothingLost(p, rest);
    if rest == 0 || rest % p != 0 { LossStep(p, loss, rest); }
  }

  lemma NothingLost(p: nat, rest: nat)
    requires p > 0
    ensures rest == 0 ==> rest % p == 0 && Scaled(0, p) == 0 && 0 % (100 * p) == 0
  {
    DivModUnique(0, p, 0, 0);
    DivModUnique(0, 100 * p, 0, 0);
  }

  lemma LossStep(p: nat, loss: nat, rest: nat)
    requires p > 0 && (loss % 100 == 0 <==> loss == 0) && (rest % p == 0 <==> rest == 0)
    ensures (Scaled(loss, p) + rest) % (100 * p) == 0 <==> loss == 0 && rest == 0
  {
    var sum := Scaled(loss, p) + rest;
    var q := sum / (100 * p);
    NothingLost(p, 0);
    if sum % (100 * p) == 0 {
      assert sum == 100 * p * q;
      Cancels(p, q, loss, rest);
    }
  }

  lemma Cancels(p: nat, q: int, loss: nat, rest: nat)
    requires p > 0 && loss * p + rest == 100 * p * q && (loss % 100 == 0 <==> loss == 0) && (rest % p == 0 <==> rest == 0)
    ensures loss == 0 && rest == 0
  {
    var d := 100 * q - loss;
    assert rest == p * d by {
      assert p * d == p * (100 * q) - p * loss;
      assert p * (100 * q) == 100 * p * q;
    }
    DivModUnique(rest, p, d, 0);
    if d >= 1 { AtLeast(p, d); }
    if d <= -1 { AtLeast(p, -d); }
    DivModUnique(loss, 100, q, 0);
  }

  lemma ModDiff(x: int, y: int, p: int)
    requires p > 0
    ensures (x - y) % p == x % p <==> y % p == 0
  {
    var q, r := x / p, x % p;
    if y % p == 0 {
      DivModUnique(x - y, p, q - y / p, r);
    }
    if (x - y) % p == r {
      DivModUnique(y, p, q - (x - y) / p, 0);
    }
  }

  // Adding scores is addition modulo the width exactly if all digits fit.
  // The 6809 always adds right; the native routine loses a digit whenever two
  // digits and their carry make sixteen or more, as 8 + 8 does.
  lemma AddIff(cpu: Cpu, a: seq<U8>, b: seq<U8>)
    requires |a| == |b| && Valid(a) && Valid(b)
    ensures Value(Add(cpu, a, b).0) == (Value(a) + Value(b)) % Pow100(|a|) <==> SumsFit(cpu, a, b)
  {
    hide *;
    AddLoses(cpu, a, b);
    LossIff(cpu, a, b);
    ModDiff(Value(a) + Value(b), Loss(cpu, a, b), Pow100(|a|));
  }

  lemma {:induction false} HardwareFits(a: seq<U8>, b: seq<U8>)
    requires |a| == |b|
    ensures SumsFit(M6809, a, b)
  {
    if a != [] { HardwareFits(a[1..], b[1..]); }
  }

  lemma NativeLosesDigit()
    ensures Value([0x08]) + Value([0x08]) == 16 && Value(Add(Native, [0x08], [0x08]).0) == 10
  {
    Nibbles(1, 0);
    Nibbles(0, 8);
    assert [0x10][..0] == [] && [0x08][..0] == [] && [0x08][1..] == [];
    assert AddByte(Native, 0x08, 0x08, 0) == (0x10, 0);
    assert Add(Native, [0x08], [0x08]).0 == [0x10] + Add(Native, [], []).0 == [0x10];
    assert Value([]) == 0;
  }

  // ---------- multiplying ----------

  // A score added n times to itself.
  function Repeated(cpu: Cpu, s: seq<U8>, n: nat): (r: seq<U8>)
    ensures |r| == |s|
  {
    if n == 0 then s else Add(cpu, Repeated(cpu, s, n - 1), s).0
  }

  // Multiplication in place; a multiplier of zero leaves the score alone.
  function Multiply(cpu: Cpu, s: seq<U8>, multiplier: U8): seq<U8> {
    if multiplier > 1 then Repeated(cpu, s, multiplier - 1) else s
  }

  // What n additions lose together.
  function RepeatedLoss(cpu: Cpu, s: seq<U8>, n: nat): nat {
    if n == 0 then 0 else RepeatedLoss(cpu, s, n - 1) + Loss(cpu, Repeated(cpu, s, n - 1), s)
  }

  // n additions of a score to itself fall short of n + 1 times its value by
  // what they lose, modulo the width.
  lemma {:induction false} RepeatedValue(cpu: Cpu, s: seq<U8>, n: nat)
    requires Valid(s)
    ensures Valid(Repeated(cpu, s, n))
    ensures Value(Repeated(cpu, s, n)) == ((n + 1) * Value(s) - RepeatedLoss(cpu, s, n)) % Pow100(|s|)
    decreases n
  {
    hide Value, Add, Loss, Pow100, Valid;
    if n == 0 {
      ValueBound(s);
      DivModUnique(Value(s), Pow100(|s|), 0, Value(s));
    } else {
      var before := Repeated(cpu, s, n - 1);
      RepeatedValue(cpu, s, n - 1);
      AddLoses(cpu, before, s);
      OneMore(Value(before), n, Value(s), RepeatedLoss(cpu, s, n - 1), Loss(cpu, before, s), Pow100(|s|));
    }
  }

  lemma OneMore(x: nat, n: nat, v: nat, lost: nat, loss: nat, p: nat)
    requires p > 0 && x == (n * v - lost) % p
    ensures (x + v - loss) % p == ((n + 1) * v - (lost + loss)) % p
  {
    var nv := n * v;
    assert (n + 1) * v == nv + v;
    ModPlus(nv - lost, v - loss, p);
    assert nv - lost + (v - loss) == (n + 1) * v - (lost + loss);
  }

  lemma ModPlus(x: int, y: int, p: nat)
    requires p > 0
    ensures (x % p + y) % p == (x + y) % p
  {
    var q, r := (x % p + y) / p, (x % p + y) % p;
    assert x + y == p * (x / p + q) + r;
    DivModUnique(x + y, p, x / p + q, r);
  }

  function Factor(multiplier: U8): nat { if multiplier == 0 then 1 else multiplier }

  // Multiplying is multiplication modulo the width, zero counting as one,
  // exactly if the additions lose a multiple of the width in all.
  lemma MultiplyIff(cpu: Cpu, s: seq<U8>, multiplier: U8)
    requires Valid(s)
    ensures Valid(Multiply(cpu, s, multiplier))
    ensures Value(Multiply(cpu, s, multiplier)) == Factor(multiplier) * Value(s) % Pow100(|s|)
      <==> RepeatedLoss(cpu, s, Factor(multiplier) - 1) % Pow100(|s|) == 0
  {
    var n := Factor(multiplier) - 1;
    assert Multiply(cpu, s, multiplier) == Repeated(cpu, s, n);
    hide *;
    RepeatedValue(cpu, s, n);
    ModDiff((n + 1) * Value(s), RepeatedLoss(cpu, s, n), Pow100(|s|));
  }

  lemma {:induction false} HardwareLosesNothing(s: seq<U8>, n: nat)
    ensures RepeatedLoss(M6809, s, n) == 0
  {
    if n > 0 {
      HardwareLosesNothing(s, n - 1);
      HardwareFits(Repeated(M6809, s, n - 1), s);
      LossIff(M6809, Repeated(M6809, s, n - 1), s);
    }
    hide *;
  }

  // On the 6809 multiplying is always multiplication modulo the width.
  lemma MultiplyValue(s: seq<U8>, multiplier: U8)
    requires Valid(s)
    ensures Value(Multiply(M6809, s, multiplier)) == Factor(multiplier) * Value(s) % Pow100(|s|)
  {
    hide Value, Pow100, Multiply, RepeatedLoss;
    MultiplyIff(M6809, s, multiplier);
    HardwareLosesNothing(s, Factor(multiplier) - 1);
    DivModUnique(0, Pow100(|s|), 0, 0);
  }

  // Doubling natively is right exactly if every digit with its carry fits.
  lemma NativeDoubleIff(s: seq<U8>)
    requires Valid(s)
    ensures Value(Multiply(Native, s, 2)) == 2 * Value(s) % Pow100(|s|) <==> SumsFit(Native, s, s)
  {
    assert RepeatedLoss(Native, s, 1) == Loss(Native, s, s) by {
      assert Repeated(Native, s, 0) == s && RepeatedLoss(Native, s, 0) == 0;
    }
    assert Factor(2) == 2;
    hide *;
    MultiplyIff(Native, s, 2);
    LossIff(Native, s, s);
  }

  // Losses can cancel: ten times 80 natively is right modulo 100, although
  // every other addition loses 160.
  lemma LossesCancel()
    ensures !SumsFit(Native, [0x80], [0x80])
    ensures Value(Multiply(Native, [0x80], 10)) == 10 * Value([0x80]) % Pow100(1)
  {
    EightyEven(4);
    assert Multiply(Native, [0x80], 10) == Repeated(Native, [0x80], 9) == [0];
    OneByteValues();
  }

  lemma OneByteValues()
    ensures Value([0x80]) == 80 && Value([0]) == 0 && Pow100(1) == 100
  {
    assert [0x80][..0] == [] && [0][..0] == [];
    assert Pow100(0) == 1;
  }

  lemma EightyAdded()
    ensures Add(Native, [0x80], [0x80]).0 == [0] && Add(Native, [0], [0x80]).0 == [0x80]
    ensures !SumsFit(Native, [0x80], [0x80])
  {
    Wraps(0x100, 0);
    Wraps(0x80, 0x80);
    DaaDigits(0, 0);
    DaaDigits(8, 0);
    Nibbles(8, 0);
    assert AddByte(Native, 0x80, 0x80, 0) == (0, 0) && AddByte(Native, 0, 0x80, 0) == (0x80, 0);
    assert ByteLoss(Native, 0x80, 0x80, 0) == 160;
    hide AddByte, ByteLoss;
    assert Add(Native, [], []) == ([], 0) && [0x80][1..] == [] && [0][1..] == [];
  }

  lemma {:induction false} EightyEven(j: nat)
    ensures Repeated(Native, [0x80], 2 * j) == [0x80] && Repeated(Native, [0x80], 2 * j + 1) == [0]
    ensures !SumsFit(Native, [0x80], [0x80])
  {
    hide Add;
    EightyAdded();
    if j > 0 {
      EightyEven(j - 1);
      assert Repeated(Native, [0x80], 2 * j) == Add(Native, Repeated(Native, [0x80], 2 * j - 1), [0x80]).0;
    }
    assert Repeated(Native, [0x80], 2 * j + 1) == Add(Native, Repeated(Native, [0x80], 2 * j), [0x80]).0;
  }
}
