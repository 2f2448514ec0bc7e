/**
 The table of contents of the battery-backed memory.  At power up every area
 in use is registered: an entry that describes the same structure and holds the
 right checksum lets the old contents live; otherwise they are reset.  The table
 found at power up may hold anything.
 */
module Files {
  import opened Machine

  const MAX_FILE_INFO := 32
  const FT_NONE := 0
  const MAX_TYPE := 0x40
  const MAX_LENGTH := 0x200
  // The table itself is at the end of the memory.
  const DIRTAB := 0x1F00

  // The version is kept in four bits.
  type U4 = v: nat | v < 16

  datatype Info = Info(kind: nat, attr: U4, version: U4, data: nat, len: nat, csum: U8)

  // An area as the program declares it; resetting it writes its defaults.
  datatype Area = Area(kind: nat, area: nat, length: U8, version: U8, defaults: seq<U8>)

  datatype Store = Store(table: seq<Info>, mem: seq<U8>)

  // Areas are laid out in the memory in front of the table.
  predicate InMemory(a: Area, mem: seq<U8>) {
    a.area < DIRTAB && a.area + a.length <= |mem| && |a.defaults| == a.length
  }

  // ---------- the table ----------

  predicate Corrupt(e: Info) {
    e.kind != FT_NONE && (e.kind >= MAX_TYPE || e.data >= DIRTAB || e.len > MAX_LENGTH)
  }

  function Cleared(e: Info): Info {
    if Corrupt(e) then e.(kind := FT_NONE) else e
  }

  // Find an entry by type at or after i, clearing corrupt ones on the way.
  function FindFrom(t: seq<Info>, kind: nat, i: nat): (r: (seq<Info>, Option<nat>))
    requires i <= |t|
    ensures |r.0| == |t|
    ensures r.1.Some? ==> i <= r.1.value < |t|
    decreases |t| - i
  {
    if i == |t| then (t, None)
    else
      var u := t[i := Cleared(t[i])];
      if u[i].kind == kind then (u, Some(i)) else FindFrom(u, kind, i + 1)
  }

  function Find(t: seq<Info>, kind: nat): (r: (seq<Info>, Option<nat>))
    ensures |r.0| == |t|
    ensures r.1.Some? ==> r.1.value < |t|
  {
    FindFrom(t, kind, 0)
  }

  // A new entry in the first free place, if there is one; the rest of the
  // place is as it was left.
  function Create(t: seq<Info>, kind: nat): (r: (seq<Info>, Option<nat>))
    ensures |r.0| == |t|
    ensures r.1.Some? ==> r.1.value < |t|
  {
    var (u, slot) := Find(t, FT_NONE);
    if slot.None? then (u, None)
    else (u[slot.value := u[slot.value].(kind := kind, attr := 0, version := 0)], slot)
  }

  // ---------- checksums ----------

  function Sum(s: seq<U8>): U8 {
    if s == [] then 0 else Wrap8(Sum(s[..|s| - 1]) + s[|s| - 1])
  }

  function Bytes(mem: seq<U8>, a: Area): seq<U8>
    requires InMemory(a, mem)
  {
    mem[a.area..a.area + a.length]
  }

  function Overwritten(mem: seq<U8>, a: Area): (m: seq<U8>)
    requires InMemory(a, mem)
    ensures |m| == |mem|
  {
    mem[..a.area] + a.defaults + mem[a.area + a.length..]
  }

  // Store the checksum of an area.  The entry must be found for that.
  function AreaUpdate(s: Store, a: Area): (r: Option<Store>)
    requires InMemory(a, s.mem)
  {
    var (t, slot) := Find(s.table, a.kind);
    if slot.None? then None
    else Some(Store(t[slot.value := t[slot.value].(csum := Sum(Bytes(s.mem, a)))], s.mem))
  }

  function AreaReset(s: Store, a: Area): Option<Store>
    requires InMemory(a, s.mem)
  {
    AreaUpdate(s.(mem := Overwritten(s.mem, a)), a)
  }

  function AreaCheck(s: Store, a: Area): Option<Store>
    requires InMemory(a, s.mem)
  {
    var (t, slot) := Find(s.table, a.kind);
    if slot.None? then None
    else if t[slot.value].csum != Sum(Bytes(s.mem, a)) then AreaReset(s.(table := t), a)
    else Some(s.(table := t))
  }

  // ---------- registration ----------

  // The entry describes the structure the program has now.
  predicate SameStructure(e: Info, a: Area) {
    e.version == a.version && e.data == a.area && e.len == a.length
  }

  // The place for an area: the entry found, or a new one.
  function Slot(t: seq<Info>, kind: nat): (r: (seq<Info>, Option<nat>))
    ensures |r.0| == |t|
    ensures r.1.Some? ==> r.1.value < |t|
  {
    var (u, found) := Find(t, kind);
    if found.Some? then (u, found) else Create(u, kind)
  }

  // Registering an area; none if an entry that is needed is not there.
  function Register(s: Store, a: Area): Option<Store>
    requires InMemory(a, s.mem)
  {
    if a.kind == FT_NONE then Some(s)
    else
      var (t, slot) := Slot(s.table, a.kind);
      if slot.None? then None
      else
        var e := t[slot.value];
        var u := t[slot.value := e.(version := a.version % 16, data := a.area, len := a.length)];
        if SameStructure(e, a) then AreaCheck(Store(u, s.mem), a) else AreaReset(Store(u, s.mem), a)
  }

  // ---------- looking without touching ----------

  // The first entry of a type at or after i that is not corrupt, a corrupt
  // one counting as free.
  function LookFrom(t: seq<Info>, kind: nat, i: nat): (r: Option<nat>)
    requires i <= |t|
    ensures r.Some? ==> i <= r.value < |t| && Cleared(t[r.value]).kind == kind
    ensures forall j | i <= j < (if r.Some? then r.value else |t|) :: Cleared(t[j]).kind != kind
    decreases |t| - i
  {
    if i == |t| then None else if Cleared(t[i]).kind == kind then Some(i) else LookFrom(t, kind, i + 1)
  }

  function Look(t: seq<Info>, kind: nat): (r: Option<nat>)
    ensures r.Some? ==> r.value < |t| && Cleared(t[r.value]).kind == kind
    ensures forall j | 0 <= j < (if r.Some? then r.value else |t|) :: Cleared(t[j]).kind != kind
  {
    LookFrom(t, kind, 0)
  }

  // Tables that differ only in corrupt entries being cleared.
  predicate Alike(t: seq<Info>, u: seq<Info>) {
    |t| == |u| && forall i | 0 <= i < |t| :: Cleared(t[i]) == Cleared(u[i])
  }

  lemma AlikeLook(t: seq<Info>, u: seq<Info>, kind: nat)
    requires Alike(t, u)
    ensures Look(t, kind) == Look(u, kind)
  {
    var a, b := Look(t, kind), Look(u, kind);
    if a.Some? { assert Cleared(u[a.value]).kind == kind; }
    if b.Some? { assert Cleared(t[b.value]).kind == kind; }
  }

  // Finding gives what looking sees, and does nothing but clear corrupt entries.
  lemma {:induction false} FindFromLooks(t: seq<Info>, kind: nat, i: nat)
    requires i <= |t|
    ensures var (u, slot) := FindFrom(t, kind, i);
      && Alike(t, u) && slot == LookFrom(t, kind, i)
      && (slot.Some? ==> u[slot.value] == Cleared(t[slot.value]))
      && (forall j | 0 <= j < i :: u[j] == t[j])
    decreases |t| - i
  {
    if i < |t| {
      var e := Cleared(t[i]);
      var u := t[i := e];
      if e.kind != kind {
        FindFromLooks(u, kind, i + 1);
        LookFromSame(t, u, kind, i + 1);
      }
    }
  }

  lemma {:induction false} LookFromSame(t: seq<Info>, u: seq<Info>, kind: nat, i: nat)
    requires i <= |t| == |u| && forall j | i <= j < |t| :: t[j] == u[j]
    ensures LookFrom(t, kind, i) == LookFrom(u, kind, i)
    decreases |t| - i
  {
    if i < |t| { LookFromSame(t, u, kind, i + 1); }
  }

  lemma FindLooks(t: seq<Info>, kind: nat)
    ensures var (u, slot) := Find(t, kind);
      && Alike(t, u) && slot == Look(t, kind) && (slot.Some? ==> u[slot.value] == Cleared(t[slot.value]))
  {
    FindFromLooks(t, kind, 0);
  }

  // The place an area gets: its entry, or else the first free one.
  function Place(t: seq<Info>, kind: nat): Option<nat> {
    if Look(t, kind).Some? then Look(t, kind) else Look(t, FT_NONE)
  }

  // What the place holds before the structures are compared.
  function Held(t: seq<Info>, kind: nat): Info
    requires Place(t, kind).Some?
  {
    var i := Place(t, kind).value;
    if Look(t, kind).Some? then t[i] else t[i].(kind := kind, attr := 0, version := 0)
  }

  lemma SlotLooks(t: seq<Info>, kind: nat)
    requires kind != FT_NONE
    ensures var (u, slot) := Slot(t, kind);
      && slot == Place(t, kind)
      && (slot.Some? ==> u[slot.value] == Held(t, kind) && Alike(t[slot.value := u[slot.value]], u))
  {
    FindLooks(t, kind);
    var (u, found) := Find(t, kind);
    if found.None? {
      FindLooks(u, FT_NONE);
      AlikeLook(t, u, FT_NONE);
    }
  }

  // ---------- one registration ----------

  // The entry an area ends with.
  function Entry(a: Area, attr: U4, sum: U8): Info {
    Info(a.kind, attr, a.version % 16, a.area, a.length, sum)
  }

  // The old contents are trusted: structure and checksum match.
  predicate Kept(s: Store, a: Area)
    requires InMemory(a, s.mem)
  {
    Place(s.table, a.kind).Some?
    && SameStructure(Held(s.table, a.kind), a) && Held(s.table, a.kind).csum == Sum(Bytes(s.mem, a))
  }

  lemma OverwrittenBytes(mem: seq<U8>, a: Area)
    requires InMemory(a, mem)
    ensures Bytes(Overwritten(mem, a), a) == a.defaults
    ensures forall b | InMemory(b, mem) && Disjoint(a, b) :: Bytes(Overwritten(mem, a), b) == Bytes(mem, b)
  {
  }

  predicate Disjoint(a: Area, b: Area) {
    a.area + a.length <= b.area || b.area + b.length <= a.area
  }

  // Putting an entry in its place makes it the one that is found.
  lemma PlacedLooks(t: seq<Info>, u: seq<Info>, i: nat, e: Info, kind: nat)
    requires kind != FT_NONE && Place(t, kind) == Some(i) && e.kind == kind && !Corrupt(e)
    requires Alike(t[i := e], u)
    ensures Look(u, kind) == Some(i)
  {
    assert Cleared(u[i]).kind == kind;
    forall j | 0 <= j < i ensures Cleared(u[j]).kind != kind {
      assert Cleared(t[i := e][j]) == Cleared(t[j]);
    }
  }

  // Other types are found where they were.
  lemma PlacedLeaves(t: seq<Info>, u: seq<Info>, i: nat, e: Info, kind: nat, other: nat)
    requires Place(t, kind) == Some(i) && e.kind == kind && !Corrupt(e) && Alike(t[i := e], u)
    requires kind != other && kind != FT_NONE && other != FT_NONE
    ensures Look(u, other) == Look(t, other)
    ensures Look(t, other).Some? ==> Cleared(u[Look(t, other).value]) == t[Look(t, other).value]
  {
    var a, b := Look(t, other), Look(u, other);
    assert Cleared(t[i]).kind in {kind, FT_NONE};
    if a.Some? { assert Cleared(u[a.value]) == Cleared(t[a.value]); }
    if b.Some? { assert Cleared(u[b.value]) == Cleared(t[i := e][b.value]); }
  }

  lemma AreaUpdateFinds(s: Store, a: Area, i: nat)
    requires InMemory(a, s.mem) && a.kind != FT_NONE && Look(s.table, a.kind) == Some(i)
    ensures var e := s.table[i].(csum := Sum(Bytes(s.mem, a)));
      var r := AreaUpdate(s, a);
      r.Some? && r.value.mem == s.mem && Alike(s.table[i := e], r.value.table) && r.value.table[i] == e
  {
    FindLooks(s.table, a.kind);
  }

  // A registration succeeds exactly if the area can have an entry and there
  // is one or a free place for it.  The entry then describes the area and has
  // its checksum; nothing else changes except that corrupt entries may be
  // cleared and that contents not trusted are reset.
  lemma RegisterOutcome(s: Store, a: Area)
    requires InMemory(a, s.mem) && a.kind != FT_NONE
    ensures var i, r := Place(s.table, a.kind), Register(s, a);
      && (r.Some? <==> a.kind < MAX_TYPE && i.Some?)
      && (r.Some? ==>
        var e := Entry(a, Held(s.table, a.kind).attr, Sum(Bytes(r.value.mem, a)));
        && |r.value.mem| == |s.mem|
        && r.value.mem == (if Kept(s, a) then s.mem else Overwritten(s.mem, a))
        && Alike(s.table[i.value := e], r.value.table) && r.value.table[i.value] == e)
  {
    SlotLooks(s.table, a.kind);
    var (t, slot) := Slot(s.table, a.kind);
    if slot.Some? {
      var i := slot.value;
      var held := t[i];
      var e := held.(version := a.version % 16, data := a.area, len := a.length);
      var u := t[i := e];
      assert Alike(s.table[i := e], u);
      FindLooks(u, a.kind);
      if a.kind < MAX_TYPE {
        PlacedLooks(s.table, u, i, e, a.kind);
        var (v, _) := Find(u, a.kind);
        AlikeLook(u, v, a.kind);
        AreaUpdateFinds(Store(u, Overwritten(s.mem, a)), a, i);
        AreaUpdateFinds(Store(v, Overwritten(s.mem, a)), a, i);
      } else {
        assert forall j | 0 <= j < |u| :: Cleared(u[j]).kind != a.kind;
      }
    }
  }

  // An area without a type is not registered and nothing is touched.
  lemma NoTypeIgnored(s: Store, a: Area)
    requires InMemory(a, s.mem) && a.kind == 0
    ensures Register(s, a) == Some(s)
  {
  }

  // The entries that are found: a legal type, an address in front of the table
  // and a length of at most 512; the place of any other is free.
  lemma FoundIff(e: Info)
    requires e.kind != 0
    ensures Find([e], e.kind).1.Some? <==> e.kind < 0x40 && e.data < 0x1F00 && e.len <= 0x200
    ensures Find([e], e.kind).1.None? <==> Find([e], 0).1.Some?
  {
    assert FindFrom([Cleared(e)], e.kind, 1).1.None? && FindFrom([Cleared(e)], 0, 1).1.None?;
  }

  // A check clears the corrupt entries on its way, and resets the area exactly if
  // its checksum is not the one stored; then its defaults are in memory, and their
  // checksum in its entry, and nothing else changes.
  lemma AreaCheckOutcome(s: Store, a: Area)
    requires InMemory(a, s.mem) && a.kind != FT_NONE && a.kind < MAX_TYPE
    ensures var i, r := Look(s.table, a.kind), AreaCheck(s, a);
      && (r.Some? <==> i.Some?)
      && (r.Some? ==>
        var cleared, e := Find(s.table, a.kind).0, s.table[i.value];
        if e.csum == Sum(Bytes(s.mem, a)) then r.value == Store(cleared, s.mem)
        else
          && r.value.mem == Overwritten(s.mem, a)
          && r.value.table == cleared[i.value := e.(csum := Sum(Bytes(r.value.mem, a)))])
  {
    FindLooks(s.table, a.kind);
    var (t, slot) := Find(s.table, a.kind);
    if slot.Some? {
      FindLooks(t, a.kind);
      FindAgain(s.table, a.kind);
    }
  }

  lemma FindAgain(t: seq<Info>, kind: nat)
    requires Find(t, kind).1.Some?
    ensures Find(Find(t, kind).0, kind) == Find(t, kind)
  {
    FindFromAgain(t, kind, 0);
  }

  lemma {:induction false} FindFromAgain(t: seq<Info>, kind: nat, i: nat)
    requires i <= |t| && FindFrom(t, kind, i).1.Some?
    ensures FindFrom(FindFrom(t, kind, i).0, kind, i) == FindFrom(t, kind, i)
    decreases |t| - i
  {
    var u := t[i := Cleared(t[i])];
    if u[i].kind != kind {
      FindFromAgain(u, kind, i + 1);
      FindFromFront(u, kind, i + 1);
    }
    var r := FindFrom(t, kind, i).0;
    assert r[i := Cleared(r[i])] == r;
  }

  lemma {:induction false} FindFromFront(t: seq<Info>, kind: nat, i: nat)
    requires i <= |t|
    ensures forall j | 0 <= j < i :: FindFrom(t, kind, i).0[j] == t[j]
    decreases |t| - i
  {
    if i < |t| { FindFromFront(t[i := Cleared(t[i])], kind, i + 1); }
  }

  // ---------- all registrations ----------

  lemma RegisterMemory(s: Store, a: Area)
    requires InMemory(a, s.mem)
    ensures var r := Register(s, a); r.Some? ==> |r.value.mem| == |s.mem|
  {
    if a.kind != FT_NONE { RegisterOutcome(s, a); }
  }

  ghost predicate AllInMemory(areas: seq<Area>, mem: seq<U8>) {
    forall i | 0 <= i < |areas| :: InMemory(areas[i], mem)
  }

  // The registrations at power up, in order; none if one of them fails.
  ghost function RegisterAll(s: Store, areas: seq<Area>): (r: Option<Store>)
    requires AllInMemory(areas, s.mem)
    ensures r.Some? ==> |r.value.mem| == |s.mem|
    decreases |areas|
  {
    if areas == [] then Some(s)
    else
      var r := Register(s, areas[0]);
      RegisterMemory(s, areas[0]);
      if r.None? then None else RegisterAll(r.value, areas[1..])
  }

  // The areas of a program: different types, none of them zero, apart in memory.
  ghost predicate Program(areas: seq<Area>, mem: seq<U8>) {
    && AllInMemory(areas, mem)
    && (forall i | 0 <= i < |areas| :: 0 < areas[i].kind < MAX_TYPE)
    && (forall i, j | 0 <= i < j < |areas| :: areas[i].kind != areas[j].kind && Disjoint(areas[i], areas[j]))
  }

  // The free places, those of corrupt entries included.
  ghost function Free(t: seq<Info>): set<nat> {
    set i: nat | i < |t| && Cleared(t[i]).kind == FT_NONE
  }

  // How many areas have no entry.
  function Missing(t: seq<Info>, areas: seq<Area>): nat {
    if areas == [] then 0 else (if Look(t, areas[0].kind).None? then 1 else 0) + Missing(t, areas[1..])
  }

  lemma {:induction false} MissingSame(t: seq<Info>, u: seq<Info>, areas: seq<Area>)
    requires forall i | 0 <= i < |areas| :: Look(t, areas[i].kind) == Look(u, areas[i].kind)
    ensures Missing(t, areas) == Missing(u, areas)
  {
    if areas != [] { MissingSame(t, u, areas[1..]); }
  }

  // What one registration does to the places and to the other areas.
  lemma RegisterFrame(s: Store, a: Area, r: Store)
    requires InMemory(a, s.mem) && a.kind != FT_NONE && Register(s, a) == Some(r)
    ensures |r.mem| == |s.mem|
    ensures Place(s.table, a.kind).Some?
    ensures if Look(s.table, a.kind).Some? then Free(r.table) == Free(s.table)
      else Place(s.table, a.kind).value in Free(s.table) && Free(r.table) == Free(s.table) - {Place(s.table, a.kind).value}
    ensures forall kind | kind != a.kind && kind != FT_NONE ::
      Look(r.table, kind) == Look(s.table, kind)
      && (Look(s.table, kind).Some? ==> r.table[Look(s.table, kind).value] == s.table[Look(s.table, kind).value])
    ensures forall b | InMemory(b, s.mem) && Disjoint(a, b) :: Bytes(r.mem, b) == Bytes(s.mem, b)
  {
    RegisterOutcome(s, a);
    OverwrittenBytes(s.mem, a);
    var i := Place(s.table, a.kind).value;
    var e := r.table[i];
    forall kind | kind != a.kind && kind != FT_NONE
      ensures Look(r.table, kind) == Look(s.table, kind)
      ensures Look(s.table, kind).Some? ==> r.table[Look(s.table, kind).value] == s.table[Look(s.table, kind).value]
    {
      PlacedLeaves(s.table, r.table, i, e, a.kind, kind);
    }
    forall j: nat | j < |s.table| && j != i ensures Cleared(r.table[j]) == Cleared(s.table[j]) {
      assert s.table[i := e][j] == s.table[j];
    }
  }

  // From any table at all, the registrations succeed exactly if the areas
  // without an entry are no more than the free places.
  lemma {:induction false} RegisterAllIff(s: Store, areas: seq<Area>)
    requires Program(areas, s.mem)
    ensures RegisterAll(s, areas).Some? <==> Missing(s.table, areas) <= |Free(s.table)|
    decreases |areas|
  {
    if areas != [] {
      var a, rest, r := areas[0], areas[1..], Register(s, areas[0]);
      RegisterOutcome(s, a);
      if r.Some? {
        RegisterFrame(s, a, r.value);
        MissingSame(s.table, r.value.table, rest);
        RegisterAllIff(r.value, rest);
      } else {
        assert Free(s.table) == {};
      }
    }
  }

  // Registering others does not touch an area or its entry.
  lemma {:induction false} OthersLeave(s: Store, areas: seq<Area>, a: Area)
    requires AllInMemory(areas, s.mem) && InMemory(a, s.mem) && a.kind != FT_NONE && RegisterAll(s, areas).Some?
    requires forall i | 0 <= i < |areas| :: areas[i].kind !in {a.kind, FT_NONE} && Disjoint(areas[i], a)
    ensures var r := RegisterAll(s, areas).value;
      && Bytes(r.mem, a) == Bytes(s.mem, a) && Look(r.table, a.kind) == Look(s.table, a.kind)
      && (Look(s.table, a.kind).Some? ==> r.table[Look(s.table, a.kind).value] == s.table[Look(s.table, a.kind).value])
    decreases |areas|
  {
    if areas != [] {
      var r := Register(s, areas[0]).value;
      RegisterFrame(s, areas[0], r);
      OthersLeave(r, areas[1..], a);
    }
  }

  // After registration every area has its entry, with the present structure
  // and the checksum of what the area holds, which is the old contents if they
  // were trusted and the defaults if not.
  ghost predicate Settled(s: Store, r: Store, a: Area)
    requires InMemory(a, s.mem) && |r.mem| == |s.mem|
  {
    && Look(r.table, a.kind).Some?
    && (exists attr :: r.table[Look(r.table, a.kind).value] == Entry(a, attr, Sum(Bytes(r.mem, a))))
    && (Look(s.table, a.kind).Some? ==> Bytes(r.mem, a) == if Kept(s, a) then Bytes(s.mem, a) else a.defaults)
    && (Look(s.table, a.kind).None? && a.version != 0 ==> Bytes(r.mem, a) == a.defaults)
  }

  lemma RegisterSettles(s: Store, a: Area, r: Store)
    requires InMemory(a, s.mem) && a.kind != FT_NONE && Register(s, a) == Some(r) && |r.mem| == |s.mem|
    ensures Settled(s, r, a)
  {
    RegisterOutcome(s, a);
    OverwrittenBytes(s.mem, a);
    var i := Place(s.table, a.kind).value;
    PlacedLooks(s.table, r.table, i, r.table[i], a.kind);
  }

  // From any table, if the registrations succeed then every area is settled.
  lemma {:induction false} AllSettled(s: Store, areas: seq<Area>, k: nat)
    requires Program(areas, s.mem) && RegisterAll(s, areas).Some? && k < |areas|
    ensures Settled(s, RegisterAll(s, areas).value, areas[k])
    decreases |areas|
  {
    hide Bytes, Sum, Register, Look;
    var a, b, r := areas[0], areas[k], Register(s, areas[0]).value;
    RegisterFrame(s, a, r);
    if k == 0 {
      RegisterSettles(s, a, r);
      OthersLeave(r, areas[1..], a);
    } else {
      AllSettled(r, areas[1..], k - 1);
      assert areas[1..][k - 1] == b;
      assert Kept(s, b) == Kept(r, b) || Look(s.table, b.kind).None?;
    }
  }

  // At the next power up an area lives exactly if its version fits in four
  // bits and its bytes still have the checksum, whatever else the memory holds.
  lemma RebootIff(r: Store, a: Area, attr: U4, mem: seq<U8>)
    requires InMemory(a, r.mem) && 0 < a.kind < MAX_TYPE && |mem| == |r.mem|
    requires Look(r.table, a.kind).Some? && r.table[Look(r.table, a.kind).value] == Entry(a, attr, Sum(Bytes(r.mem, a)))
    ensures Kept(Store(r.table, mem), a) <==> a.version < 16 && Sum(Bytes(mem, a)) == Sum(Bytes(r.mem, a))
  {
    assert a.version % 16 == a.version <==> a.version < 16;
  }

  // ---------- resetting everything ----------

  function Emptied(t: seq<Info>): (u: seq<Info>)
    ensures |u| == |t|
  {
    seq(|t|, i requires 0 <= i < |t| => t[i].(kind := FT_NONE))
  }

  ghost function ResetAll(s: Store, areas: seq<Area>): Option<Store>
    requires AllInMemory(areas, s.mem)
  {
    RegisterAll(s.(table := Emptied(s.table)), areas)
  }

  lemma EmptiedFree(t: seq<Info>)
    ensures |Free(Emptied(t))| == |t| && forall kind | kind != FT_NONE :: Look(Emptied(t), kind).None?
    ensures t != [] ==> Look(Emptied(t), FT_NONE) == Some(0)
  {
    assert Free(Emptied(t)) == Below(|t|);
    if t != [] {
      var r := Look(Emptied(t), FT_NONE);
      assert Cleared(Emptied(t)[0]).kind == FT_NONE;
    }
  }

  ghost function Below(n: nat): (s: set<nat>)
    ensures |s| == n && forall i :: i in s <==> 0 <= i < n
  {
    if n == 0 then {} else Below(n - 1) + {n - 1}
  }

  lemma {:induction false} AllMissing(t: seq<Info>, areas: seq<Area>)
    requires forall i | 0 <= i < |areas| :: Look(t, areas[i].kind).None?
    ensures Missing(t, areas) == |areas|
  {
    if areas != [] { AllMissing(t, areas[1..]); }
  }

  // Resetting works exactly for as many areas as there are places, and every
  // area of a version other than zero then holds its defaults.
  lemma ResetOutcome(s: Store, areas: seq<Area>)
    requires Program(areas, s.mem)
    ensures ResetAll(s, areas).Some? <==> |areas| <= |s.table|
    ensures ResetAll(s, areas).Some? ==> |ResetAll(s, areas).value.mem| == |s.mem|
    ensures ResetAll(s, areas).Some? ==> (forall k | 0 <= k < |areas| && areas[k].version != 0 ::
      Bytes(ResetAll(s, areas).value.mem, areas[k]) == areas[k].defaults)
  {
    var e := s.(table := Emptied(s.table));
    EmptiedFree(s.table);
    AllMissing(e.table, areas);
    RegisterAllIff(e, areas);
    if RegisterAll(e, areas).Some? {
      forall k | 0 <= k < |areas| && areas[k].version != 0
        ensures Bytes(RegisterAll(e, areas).value.mem, areas[k]) == areas[k].defaults
      {
        AllSettled(e, areas, k);
      }
    }
  }

  // A version of zero is not reset when the first place still describes it:
  // a new entry gets version zero but keeps the old address, length and checksum.
  lemma ResetKeepsVersionZeroIff(s: Store, a: Area)
    requires InMemory(a, s.mem) && 0 < a.kind < MAX_TYPE && s.table != []
    ensures Kept(s.(table := Emptied(s.table)), a) <==>
      a.version == 0 && s.table[0].data == a.area && s.table[0].len == a.length
      && s.table[0].csum == Sum(Bytes(s.mem, a))
  {
    EmptiedFree(s.table);
  }

  // ---------- what goes wrong otherwise ----------

  // An area of version 16 with a default of 7.
  function Sixteen(): Area { Area(1, 0, 1, 16, [7]) }

  // The memory with its entry when the area holds x.
  function Holding(x: U8): Store { Store([Entry(Sixteen(), 0, x)], [x]) }

  lemma SixteenBytes(x: U8)
    ensures Bytes([x], Sixteen()) == [x] && Overwritten([x], Sixteen()) == [7] && Sum([x]) == x
  {
    OneByte(x);
  }

  lemma SixteenFirst()
    ensures Register(Store([Info(0, 0, 0, 0, 0, 0)], [0]), Sixteen()) == Some(Holding(7))
  {
    SixteenBytes(0);
    SixteenBytes(7);
    var none := Info(0, 0, 0, 0, 0, 0);
    FindSingle(none, 1);
    FindSingle(none, 0);
    FindSingle(Entry(Sixteen(), 0, 0), 1);
    assert [none][0 := Info(1, 0, 0, 0, 0, 0)] == [Info(1, 0, 0, 0, 0, 0)];
    assert Slot([none], 1) == ([Info(1, 0, 0, 0, 0, 0)], Some(0));
    hide Find, Sum, Bytes, Overwritten, Slot;
    assert [Info(1, 0, 0, 0, 0, 0)][0 := Entry(Sixteen(), 0, 0)] == [Entry(Sixteen(), 0, 0)];
    assert [Entry(Sixteen(), 0, 0)][0 := Entry(Sixteen(), 0, 7)] == [Entry(Sixteen(), 0, 7)];
  }

  lemma SixteenAgain()
    ensures AreaUpdate(Holding(7).(mem := [9]), Sixteen()) == Some(Holding(9))
    ensures Register(Holding(9), Sixteen()) == Some(Holding(7))
  {
    SixteenBytes(9);
    SixteenBytes(7);
    FindSingle(Entry(Sixteen(), 0, 7), 1);
    FindSingle(Entry(Sixteen(), 0, 9), 1);
    assert Slot([Entry(Sixteen(), 0, 9)], 1) == ([Entry(Sixteen(), 0, 9)], Some(0));
    hide Find, Sum, Bytes, Overwritten, Slot;
    assert [Entry(Sixteen(), 0, 9)][0 := Entry(Sixteen(), 0, 9)] == [Entry(Sixteen(), 0, 9)];
    assert [Entry(Sixteen(), 0, 9)][0 := Entry(Sixteen(), 0, 7)] == [Entry(Sixteen(), 0, 7)];
    assert [Entry(Sixteen(), 0, 7)][0 := Entry(Sixteen(), 0, 9)] == [Entry(Sixteen(), 0, 9)];
  }

  // It happens: the area is registered, changed properly to hold 9, and back
  // at 7 after the next power up.
  lemma VersionSixteenLost()
    ensures Register(Store([Info(0, 0, 0, 0, 0, 0)], [0]), Sixteen()) == Some(Holding(7))
    ensures AreaUpdate(Holding(7).(mem := [9]), Sixteen()) == Some(Holding(9))
    ensures Register(Holding(9), Sixteen()) == Some(Holding(7))
  {
    SixteenFirst();
    SixteenAgain();
    hide *;
  }

  lemma FindSingle(e: Info, kind: nat)
    requires !Corrupt(e)
    ensures Find([e], kind) == ([e], if e.kind == kind then Some(0) else None)
  {
    assert [e][0 := Cleared(e)] == [e];
    assert Cleared(e) == e;
    assert FindFrom([e], kind, 1) == ([e], None);
  }

  lemma OneByte(x: U8)
    ensures Sum([x]) == x
  {
    assert [x][..0] == [];
    assert Sum([]) == 0;
    DivModUnique(x, 0x100, 0, x);
  }

  // It happens: an area of version zero that holds 9 keeps it when all files
  // are reset to their defaults.
  lemma VersionZeroKept()
    ensures var a := Area(1, 0, 1, 0, [7]);
      var s := Store([Entry(a, 0, 9)], [9]);
      && AllInMemory([a], s.mem) && ResetAll(s, [a]).Some? && ResetAll(s, [a]).value.mem == [9]
  {
    var a := Area(1, 0, 1, 0, [7]);
    var s := Store([Entry(a, 0, 9)], [9]);
    OneByte(9);
    assert Bytes([9], a) == [9];
    var e := s.(table := Emptied(s.table));
    ResetKeepsVersionZeroIff(s, a);
    EmptiedFree(s.table);
    RegisterOutcome(e, a);
    RegisterMemory(e, a);
    assert [a][1..] == [];
    assert RegisterAll(Register(e, a).value, []) == Register(e, a);
  }
}
