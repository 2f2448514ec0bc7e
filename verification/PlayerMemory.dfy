/**
 The player memory as it runs: the lamp and flag matrices and the block of
 memory with the local variables and save areas.
 */
module PlayerMemories {
  import opened Machine
  import P = Players

  method Memcpy(dst: array<U8>, at: nat, data: seq<U8>)
    requires at + |data| <= dst.Length
    modifies dst
    ensures dst[..] == P.Blit(old(dst[..]), at, data)
  {
    forall i | 0 <= i < |data| {
      dst[at + i] := data[i];
    }
  }

  // A copy that replaces the whole destination.
  method Overwrite(dst: array<U8>, data: seq<U8>)
    requires |data| == dst.Length
    modifies dst
    ensures dst[..] == data
  {
    Memcpy(dst, 0, data);
  }

  class PlayerMemory {
    const layout: P.Layout
    const lampMatrix: array<U8>
    const bitMatrix: array<U8>
    const ram: array<U8>

    ghost predicate Valid()
      reads this, lampMatrix, bitMatrix, ram
    {
      && lampMatrix != bitMatrix && lampMatrix != ram && bitMatrix != ram
      && P.Shaped(layout, Abs())
    }

    ghost function Abs(): P.State
      reads this, lampMatrix, bitMatrix, ram
    {
      P.State(lampMatrix[..], bitMatrix[..], ram[..])
    }

    constructor (layout: P.Layout, size: nat)
      requires layout.vars <= layout.slot
      requires size >= P.SaveBase(layout, P.MAX_PLAYERS) + layout.Record() && size >= P.SaveBase(layout, P.MAX_PLAYERS + 1)
      ensures Valid() && this.layout == layout
    {
      this.layout := layout;
      lampMatrix := new U8[layout.lamps](_ => 0);
      bitMatrix := new U8[layout.flags](_ => 0);
      ram := new U8[size](_ => 0);
    }

    method StartGame()
      requires Valid()
      modifies lampMatrix, bitMatrix, ram
      ensures Valid() && Abs() == P.StartGame(layout, old(Abs()))
    {
      var n := P.SaveBase(layout, P.MAX_PLAYERS + 1);
      Memcpy(ram, 0, P.Zeros(n));
      Memcpy(lampMatrix, 0, P.Zeros(lampMatrix.Length));
      Memcpy(bitMatrix, 0, P.Zeros(bitMatrix.Length));
      assert ram[..] == P.Zeros(n) + old(ram[..])[n..];
      assert lampMatrix[..] == P.Zeros(layout.lamps);
      assert bitMatrix[..] == P.Zeros(layout.flags);
    }

    method Save(playerUp: nat)
      requires Valid() && P.IsPlayer(playerUp)
      modifies ram
      ensures Valid() && Abs() == P.Save(layout, old(Abs()), playerUp)
    {
      hide P.SaveBase, P.Blit;
      P.SlotOrder(layout, playerUp, P.MAX_PLAYERS);
      P.SlotOrder(layout, 1, playerUp);
      assert P.SaveBase(layout, 1) >= layout.slot by { FirstSlot(layout); }
      var area, l := P.SaveBase(layout, playerUp), layout;
      ghost var r0, lamps, flags := ram[..], lampMatrix[..], bitMatrix[..];
      Memcpy(ram, area, lampMatrix[..]);
      P.BlitApart(r0, area, lamps, 0, l.vars);
      ghost var r1 := ram[..];
      Memcpy(ram, area + l.lamps, bitMatrix[..]);
      P.BlitApart(r1, area + l.lamps, flags, 0, l.vars);
      Memcpy(ram, area + l.lamps + l.flags, ram[..l.vars]);
      ThreeBlits(r0, area, lamps, flags, r0[..l.vars]);
    }

    method Restore(playerUp: nat)
      requires Valid() && P.IsPlayer(playerUp)
      modifies lampMatrix, bitMatrix, ram
      ensures Valid() && Abs() == P.Restore(layout, old(Abs()), playerUp)
    {
      hide P.SaveBase, P.Blit, P.Restore;
      RestoreParts(layout, Abs(), playerUp);
      var area, l := P.SaveBase(layout, playerUp), layout;
      Overwrite(lampMatrix, ram[area..area + l.lamps]);
      Overwrite(bitMatrix, ram[area + l.lamps..area + l.lamps + l.flags]);
      Memcpy(ram, 0, ram[area + l.lamps + l.flags..area + l.Record()]);
    }
  }

  lemma FirstSlot(l: P.Layout)
    ensures P.SaveBase(l, 1) == l.slot
  {
    assert P.SaveBase(l, 0) == 0;
  }

  lemma RestoreParts(l: P.Layout, s: P.State, p: nat)
    requires P.Shaped(l, s) && P.IsPlayer(p)
    ensures var area := P.SaveBase(l, p);
      && area + l.Record() <= |s.ram|
      && P.Restore(l, s, p) == P.State(s.ram[area..area + l.lamps], s.ram[area + l.lamps..area + l.lamps + l.flags],
                                       P.Blit(s.ram, 0, s.ram[area + l.lamps + l.flags..area + l.Record()]))
  {
    hide P.SaveBase, P.Blit, P.Unflat;
    P.SlotOrder(l, p, P.MAX_PLAYERS);
    RecordParts(l, s.ram, P.SaveBase(l, p));
  }

  // The parts of a save area are the parts of the record it holds.
  lemma RecordParts(l: P.Layout, ram: seq<U8>, area: nat)
    requires area + l.Record() <= |ram|
    ensures P.Unflat(l, ram[area..area + l.Record()]) ==
      P.Local(ram[area..area + l.lamps], ram[area + l.lamps..area + l.lamps + l.flags],
              ram[area + l.lamps + l.flags..area + l.Record()])
  {
    SliceOfSlice(ram, area, area + l.Record(), 0, l.lamps);
    SliceOfSlice(ram, area, area + l.Record(), l.lamps, l.lamps + l.flags);
    SliceOfSlice(ram, area, area + l.Record(), l.lamps + l.flags, l.Record());
  }

  lemma SliceOfSlice(s: seq<U8>, i: nat, j: nat, a: nat, b: nat)
    requires i <= j <= |s| && a <= b <= j - i
    ensures s[i..j][a..b] == s[i + a..i + b]
  {
    var t, u := s[i..j][a..b], s[i + a..i + b];
    forall k | 0 <= k < |t| ensures t[k] == u[k] {
      assert t[k] == s[i..j][a + k];
    }
  }

  // Copying three blocks one after the other copies their concatenation.
  lemma ThreeBlits(ram: seq<U8>, at: nat, a: seq<U8>, b: seq<U8>, c: seq<U8>)
    requires at + |a| + |b| + |c| <= |ram|
    ensures P.Blit(P.Blit(P.Blit(ram, at, a), at + |a|, b), at + |a| + |b|, c) == P.Blit(ram, at, a + b + c)
  {
  }
}
