/** The file table and the battery-backed memory in place. */
module FileTables {
  import opened Machine
  import F = Files

  class FileTable {
    const table: array<F.Info>
    const mem: array<U8>

    ghost function Abs(): F.Store
      reads table, mem
    {
      F.Store(table[..], mem[..])
    }

    constructor (table: array<F.Info>, mem: array<U8>)
      ensures this.table == table && this.mem == mem
    {
      this.table, this.mem := table, mem;
    }

    // The entry of a type; corrupt entries on the way are cleared.
    method Find(kind: nat) returns (slot: Option<nat>)
      modifies table
      ensures (table[..], slot) == F.Find(old(table[..]), kind)
    {
      var i := 0;
      while i < table.Length
        invariant i <= table.Length
        invariant F.Find(old(table[..]), kind) == F.FindFrom(table[..], kind, i)
      {
        ghost var t := table[..];
        if F.Corrupt(table[i]) {
          table[i] := table[i].(kind := F.FT_NONE);
        }
        assert table[..] == t[i := F.Cleared(t[i])];
        if table[i].kind == kind { return Some(i); }
        i := i + 1;
      }
      return None;
    }

    method Create(kind: nat) returns (slot: Option<nat>)
      modifies table
      ensures (table[..], slot) == F.Create(old(table[..]), kind)
    {
      slot := Find(F.FT_NONE);
      if slot.Some? {
        table[slot.value] := table[slot.value].(kind := kind, attr := 0, version := 0);
      }
    }

    method AreaSum(a: F.Area) returns (csum: U8)
      requires F.InMemory(a, mem[..])
      ensures csum == F.Sum(F.Bytes(mem[..], a))
    {
      csum := 0;
      var ptr := a.area;
      while ptr < a.area + a.length
        invariant a.area <= ptr <= a.area + a.length
        invariant csum == F.Sum(mem[a.area..ptr])
      {
        assert mem[a.area..ptr + 1][..ptr - a.area] == mem[a.area..ptr];
        csum := Wrap8(csum + mem[ptr]);
        ptr := ptr + 1;
      }
      assert mem[a.area..ptr] == F.Bytes(mem[..], a);
    }

    // Store the checksum; false if there is no entry to hold it.
    method AreaUpdate(a: F.Area) returns (ok: bool)
      requires table != mem as object && F.InMemory(a, mem[..])
      modifies table
      ensures mem[..] == old(mem[..])
      ensures var r := F.AreaUpdate(old(Abs()), a); ok == r.Some? && (ok ==> Abs() == r.value)
    {
      var csum := AreaSum(a);
      var slot := Find(a.kind);
      if slot.None? { return false; }
      table[slot.value] := table[slot.value].(csum := csum);
      return true;
    }

    // The reset function of the area, then its new checksum.
    method AreaReset(a: F.Area) returns (ok: bool)
      requires table != mem as object && F.InMemory(a, mem[..])
      modifies table, mem
      ensures var r := F.AreaReset(old(Abs()), a); ok == r.Some? && (ok ==> Abs() == r.value)
    {
      ghost var m := mem[..];
      for i := 0 to a.length
        invariant mem[..] == m[..a.area] + a.defaults[..i] + m[a.area + i..]
        invariant table[..] == old(table[..])
      {
        mem[a.area + i] := a.defaults[i];
      }
      assert a.defaults[..a.length] == a.defaults;
      assert mem[..] == F.Overwritten(m, a);
      ok := AreaUpdate(a);
    }

    method AreaCheck(a: F.Area) returns (ok: bool)
      requires table != mem as object && F.InMemory(a, mem[..])
      modifies table, mem
      ensures var r := F.AreaCheck(old(Abs()), a); ok == r.Some? && (ok ==> Abs() == r.value)
    {
      var csum := AreaSum(a);
      var slot := Find(a.kind);
      if slot.None? { return false; }
      if csum != table[slot.value].csum {
        ok := AreaReset(a);
      } else {
        ok := true;
      }
    }

    // Registration at power up; false where the program would use an entry
    // that is not there.
    method Register(a: F.Area) returns (ok: bool)
      requires table != mem as object && F.InMemory(a, mem[..])
      modifies table, mem
      ensures var r := F.Register(old(Abs()), a); ok == r.Some? && (ok ==> Abs() == r.value)
    {
      if a.kind == F.FT_NONE { return true; }
      var slot := Find(a.kind);
      if slot.None? { slot := Create(a.kind); }
      if slot.None? { return false; }
      var e := table[slot.value];
      var reset := e.version != a.version || e.data != a.area || a.length != e.len;
      table[slot.value] := e.(version := a.version % 16, data := a.area, len := a.length);
      if reset { ok := AreaReset(a); } else { ok := AreaCheck(a); }
    }
  }
}
