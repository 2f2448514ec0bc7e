/** Machine integers and single bits. */
module Machine {

  type U8 = x: int | 0 <= x < 0x100
  type U16 = x: int | 0 <= x < 0x1_0000
  type U32 = x: int | 0 <= x < 0x1_0000_0000

  datatype Option<T> = None | Some(value: T)

  // Arithmetic on unsigned bytes wraps around.
  function Wrap8(x: int): U8 { x % 0x100 }

  function Wrap32(x: int): U32 { x % 0x1_0000_0000 }

  // The byte with only bit k set.
  function SingleBit(k: nat): (m: bv8)
    requires k < 8
    ensures m != 0 && m & (m - 1) == 0
  {
    if k == 0 then 0x01 else if k == 1 then 0x02
    else if k == 2 then 0x04 else if k == 3 then 0x08
    else if k == 4 then 0x10 else if k == 5 then 0x20
    else if k == 6 then 0x40 else 0x80
  }

  // Setting or clearing one bit of a byte leaves the others alone.
  lemma OneBitChange(r: bv8, j: nat, k: nat)
    requires j < 8 && k < 8
    ensures (r | SingleBit(j)) & SingleBit(k) != 0 <==> j == k || r & SingleBit(k) != 0
    ensures (r & !SingleBit(j)) & SingleBit(k) != 0 <==> j != k && r & SingleBit(k) != 0
  {
    var m, n := SingleBit(j), SingleBit(k);
    assert j == k <==> m == n;
    OneHot(r, m, n);
  }

  lemma OneHot(r: bv8, m: bv8, n: bv8)
    requires m != 0 && m & (m - 1) == 0 && n != 0 && n & (n - 1) == 0
    ensures (r | m) & n != 0 <==> m == n || r & n != 0
    ensures (r & !m) & n != 0 <==> m != n && r & n != 0
  {
  }

  // Quotient and remainder are determined by their defining equation.
  lemma DivModUnique(x: int, p: int, q: int, r: int)
    requires p >= 1 && 0 <= r < p && x == p * q + r
    ensures x / p == q && x % p == r
  {
    var e := x / p - q;
    assert p * e == r - x % p;
    if e >= 1 { AtLeast(p, e); }
    if e <= -1 { AtLeast(p, -e); }
  }

  lemma AtLeast(p: int, e: int)
    requires p >= 1 && e >= 1
    ensures p * e >= p
  {
  }

  // A remainder by a multiple keeps the remainder.
  lemma ModMod(w: nat, power: nat)
    requires power > 0
    ensures w % (10 * power) % power == w % power
  {
    var q, r := w / (10 * power), w % (10 * power);
    assert w == power * (10 * q + r / power) + r % power;
    DivModUnique(w, power, 10 * q + r / power, r % power);
  }
}
