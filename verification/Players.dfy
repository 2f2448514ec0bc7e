/**
 Per-player data: the lamps, flags and local variables of the player who is up
 are global, and are swapped with save areas in one block of memory when the
 player changes.
 */
module Players {
  import opened Machine

  const MAX_PLAYERS := 4

  // Sizes in bytes: lamp columns, flag bytes, local variables, and the slot
  // reserved for each save area (LOCAL_SIZE).
  datatype Layout = Layout(lamps: nat, flags: nat, vars: nat, slot: nat) {
    function Record(): nat { lamps + flags + vars }

    // The saved record of one player stays inside its slot.
    predicate Fits() { Record() <= slot }
  }

  // What belongs to one player.
  datatype Local = Local(lamps: seq<U8>, flags: seq<U8>, vars: seq<U8>)

  // The global lamps and flags, and the memory that starts with the global
  // local variables and continues with the save areas.
  datatype State = State(lamps: seq<U8>, flags: seq<U8>, ram: seq<U8>)

  predicate Shaped(l: Layout, s: State) {
    && |s.lamps| == l.lamps && |s.flags| == l.flags
    && l.vars <= l.slot
    && |s.ram| >= SaveBase(l, MAX_PLAYERS) + l.Record() && |s.ram| >= SaveBase(l, MAX_PLAYERS + 1)
  }

  predicate IsPlayer(p: nat) { 1 <= p <= MAX_PLAYERS }

  // A block copied into memory at an offset.
  function Blit(ram: seq<U8>, at: nat, data: seq<U8>): (r: seq<U8>)
    requires at + |data| <= |ram|
    ensures |r| == |ram|
  {
    ram[..at] + data + ram[at + |data|..]
  }

  // Where player p's save area starts: p slots into the memory.
  function SaveBase(l: Layout, p: nat): nat {
    if p == 0 then 0 else SaveBase(l, p - 1) + l.slot
  }

  predicate Sized(l: Layout, x: Local) {
    |x.lamps| == l.lamps && |x.flags| == l.flags && |x.vars| == l.vars
  }

  // A record in memory: lamps, flags, variables.
  function Flat(x: Local): seq<U8> { x.lamps + x.flags + x.vars }

  function Unflat(l: Layout, record: seq<U8>): (x: Local)
    requires |record| == l.Record()
    ensures Sized(l, x)
  {
    Local(record[..l.lamps], record[l.lamps..l.lamps + l.flags], record[l.lamps + l.flags..])
  }

  lemma UnflatFlat(l: Layout, x: Local)
    requires Sized(l, x)
    ensures Unflat(l, Flat(x)) == x
  {
  }

  function Live(l: Layout, s: State): (x: Local)
    requires Shaped(l, s)
    ensures Sized(l, x)
  {
    Local(s.lamps, s.flags, s.ram[..l.vars])
  }

  function Saved(l: Layout, s: State, p: nat): (x: Local)
    requires Shaped(l, s) && IsPlayer(p)
    ensures Sized(l, x)
  {
    SlotOrder(l, p, MAX_PLAYERS);
    Unflat(l, s.ram[SaveBase(l, p)..SaveBase(l, p) + l.Record()])
  }

  // Save areas are the slots of the block, the globals in slot zero.
  lemma {:induction false} SaveBaseIs(l: Layout, p: nat)
    ensures SaveBase(l, p) == p * l.slot
  {
    if p > 0 { SaveBaseIs(l, p - 1); }
  }

  lemma {:induction false} SlotOrder(l: Layout, p: nat, q: nat)
    ensures p <= q ==> SaveBase(l, p) <= SaveBase(l, q)
    ensures p < q ==> SaveBase(l, p) + l.slot <= SaveBase(l, q)
    decreases q
  {
    if p < q { SlotOrder(l, p, q - 1); }
  }

  function Save(l: Layout, s: State, p: nat): (s': State)
    requires Shaped(l, s) && IsPlayer(p)
    ensures Shaped(l, s')
  {
    SlotOrder(l, p, MAX_PLAYERS);
    s.(ram := Blit(s.ram, SaveBase(l, p), Flat(Live(l, s))))
  }

  function Restore(l: Layout, s: State, p: nat): (s': State)
    requires Shaped(l, s) && IsPlayer(p)
    ensures Shaped(l, s')
  {
    var x := Saved(l, s, p);
    SlotOrder(l, p, MAX_PLAYERS);
    State(x.lamps, x.flags, Blit(s.ram, 0, x.vars))
  }

  // A player change in a multiplayer game.
  function Switch(l: Layout, s: State, from: nat, to: nat): (s': State)
    requires Shaped(l, s) && IsPlayer(from) && IsPlayer(to)
    ensures Shaped(l, s')
  {
    Restore(l, Save(l, s, from), to)
  }

  // Whatever the player who is up does: arbitrary new lamps, flags, variables.
  function Play(l: Layout, s: State, x: Local): (s': State)
    requires Shaped(l, s) && Sized(l, x)
    ensures Shaped(l, s')
  {
    State(x.lamps, x.flags, Blit(s.ram, 0, x.vars))
  }

  // Player p's own data when player `up` is up.
  function View(l: Layout, s: State, up: nat, p: nat): Local
    requires Shaped(l, s) && IsPlayer(p)
  {
    if p == up then Live(l, s) else Saved(l, s, p)
  }

  // ---------- independence ----------

  lemma BlitApart(ram: seq<U8>, at: nat, data: seq<U8>, i: nat, j: nat)
    requires at + |data| <= |ram| && i <= j <= |ram|
    requires j <= at || at + |data| <= i
    ensures Blit(ram, at, data)[i..j] == ram[i..j]
  {
  }

  lemma BlitInside(ram: seq<U8>, at: nat, data: seq<U8>)
    requires at + |data| <= |ram|
    ensures Blit(ram, at, data)[at..at + |data|] == data
  {
  }

  // Saving stores the data of the player who was up, and no other.
  lemma SaveViews(l: Layout, s: State, from: nat, p: nat)
    requires Shaped(l, s) && l.Fits() && IsPlayer(from) && IsPlayer(p)
    ensures Saved(l, Save(l, s, from), p) == View(l, s, from, p)
    ensures Live(l, Save(l, s, from)) == Live(l, s)
  {
    var b, c, flat := SaveBase(l, from), SaveBase(l, p), Flat(Live(l, s));
    SlotOrder(l, from, MAX_PLAYERS);
    SlotOrder(l, p, MAX_PLAYERS);
    SlotOrder(l, 0, from);
    SlotOrder(l, p, from);
    SlotOrder(l, from, p);
    BlitApart(s.ram, b, flat, 0, l.vars);
    if p == from {
      BlitInside(s.ram, b, flat);
      UnflatFlat(l, Live(l, s));
    } else {
      BlitApart(s.ram, b, flat, c, c + l.Record());
    }
  }

  // Overwriting the global variables leaves every save area alone.
  lemma LiveApart(l: Layout, s: State, x: Local, p: nat)
    requires Shaped(l, s) && IsPlayer(p) && Sized(l, x)
    ensures Saved(l, Play(l, s, x), p) == Saved(l, s, p)
    ensures Live(l, Play(l, s, x)) == x
  {
    SlotOrder(l, p, MAX_PLAYERS);
    SlotOrder(l, 0, p);
    BlitApart(s.ram, 0, x.vars, SaveBase(l, p), SaveBase(l, p) + l.Record());
    BlitInside(s.ram, 0, x.vars);
  }

  // When records fit their slots a player change changes nobody's data: the
  // player who comes up finds exactly what was left.
  lemma SwitchKeepsViews(l: Layout, s: State, from: nat, to: nat, p: nat)
    requires Shaped(l, s) && l.Fits() && IsPlayer(from) && IsPlayer(to) && IsPlayer(p)
    ensures View(l, Switch(l, s, from, to), to, p) == View(l, s, from, p)
  {
    var s1 := Save(l, s, from);
    SaveViews(l, s, from, p);
    SaveViews(l, s, from, to);
    LiveApart(l, s1, Saved(l, s1, to), p);
  }

  function Zeros(n: nat): seq<U8> { seq(n, _ => 0) }

  // When they do not fit, a record runs into the next save area.
  lemma OverlapDamages(l: Layout, s: State)
    requires Shaped(l, s) && SaveBase(l, 2) < |s.ram| && !l.Fits() && l.lamps >= 1 && l.slot >= 1
    requires Live(l, s) == Local(Zeros(l.lamps), Zeros(l.flags), Zeros(l.vars))
    requires s.ram[SaveBase(l, 2)] == 1
    ensures View(l, Switch(l, s, 1, 2), 2, 2) != View(l, s, 1, 2)
  {
    SlotOrder(l, 2, MAX_PLAYERS);
    assert SaveBase(l, 2) == SaveBase(l, 1) + l.slot;
    var s1 := Save(l, s, 1);
    var flat := Flat(Live(l, s));
    assert flat[l.slot] == 0;
    assert s1.ram[SaveBase(l, 2)] == flat[l.slot];
    assert Saved(l, s1, 2).lamps[0] == 0;
    assert Saved(l, s, 2).lamps[0] == 1;
  }

  // The change of the player who is up keeps player p's data.
  predicate ChangeKeeps(l: Layout, s: State, from: nat, to: nat, p: nat)
    requires Shaped(l, s) && IsPlayer(from) && IsPlayer(to) && IsPlayer(p)
  {
    View(l, Switch(l, s, from, to), to, p) == View(l, s, from, p)
  }

  ghost predicate Independent(l: Layout) {
    forall s, from: nat, to: nat, p: nat | Shaped(l, s) && IsPlayer(from) && IsPlayer(to) && IsPlayer(p) ::
      ChangeKeeps(l, s, from, to, p)
  }

  // All zero but for the first byte of player 2's save area.
  function OneMark(l: Layout): (s: State)
    requires l.vars <= l.slot && l.slot >= 1
    ensures Shaped(l, s) && SaveBase(l, 2) < |s.ram|
    ensures Live(l, s) == Local(Zeros(l.lamps), Zeros(l.flags), Zeros(l.vars)) && s.ram[SaveBase(l, 2)] == 1
  {
    SlotOrder(l, 2, MAX_PLAYERS);
    var ram := Zeros(SaveBase(l, MAX_PLAYERS + 1) + l.Record())[SaveBase(l, 2) := 1];
    SlotOrder(l, 0, 1);
    assert ram[..l.vars] == Zeros(l.vars);
    State(Zeros(l.lamps), Zeros(l.flags), ram)
  }

  // Player data is independent, for all players and all changes, exactly when a
  // record fits its slot.
  lemma IndependentIff(l: Layout)
    requires l.lamps >= 1 && l.vars <= l.slot && l.slot >= 1
    ensures Independent(l) <==> l.Fits()
  {
    if l.Fits() {
      forall s, from: nat, to: nat, p: nat | Shaped(l, s) && IsPlayer(from) && IsPlayer(to) && IsPlayer(p)
        ensures ChangeKeeps(l, s, from, to, p)
      {
        SwitchKeepsViews(l, s, from, to, p);
      }
    } else {
      OverlapDamages(l, OneMark(l));
      assert !ChangeKeeps(l, OneMark(l), 1, 2, 2);
    }
  }

  // ---------- whole games ----------

  datatype Event = Plays(x: Local) | ChangePlayer(to: nat)

  predicate Allowed(l: Layout, e: Event) {
    match e
    case Plays(x) => Sized(l, x)
    case ChangePlayer(to) => IsPlayer(to)
  }

  // The memory and the player who is up, after the events.
  function Run(l: Layout, s: State, up: nat, events: seq<Event>): (r: (State, nat))
    requires Shaped(l, s) && IsPlayer(up) && forall e | e in events :: Allowed(l, e)
    ensures Shaped(l, r.0) && IsPlayer(r.1)
    decreases |events|
  {
    if events == [] then (s, up)
    else
      assert events[0] in events && Allowed(l, events[0]);
      match events[0]
      case Plays(x) => Run(l, Play(l, s, x), up, events[1..])
      case ChangePlayer(to) => Run(l, Switch(l, s, up, to), to, events[1..])
  }

  // The same game where every player simply owns a copy.
  function Owned(local: seq<Local>, up: nat, events: seq<Event>): (r: seq<Local>)
    requires |local| == MAX_PLAYERS + 1 && IsPlayer(up)
    requires forall e | e in events :: e.ChangePlayer? ==> IsPlayer(e.to)
    ensures |r| == |local|
    decreases |events|
  {
    if events == [] then local
    else
      assert events[0] in events;
      match events[0]
      case Plays(x) => Owned(local[up := x], up, events[1..])
      case ChangePlayer(to) => Owned(local, to, events[1..])
  }

  // Shared globals and save areas together behave like one private copy per
  // player, over every sequence of play and player changes.
  lemma {:induction false} RunIsOwned(l: Layout, s: State, up: nat, events: seq<Event>, local: seq<Local>, p: nat)
    requires Shaped(l, s) && l.Fits() && IsPlayer(up) && IsPlayer(p) && forall e | e in events :: Allowed(l, e)
    requires |local| == MAX_PLAYERS + 1
    requires forall q: nat | IsPlayer(q) :: local[q] == View(l, s, up, q)
    ensures var r := Run(l, s, up, events);
      View(l, r.0, r.1, p) == Owned(local, up, events)[p]
    decreases |events|
  {
    if events != [] {
      assert events[0] in events && Allowed(l, events[0]);
      match events[0] {
        case Plays(x) =>
          forall q: nat | IsPlayer(q) ensures local[up := x][q] == View(l, Play(l, s, x), up, q) {
            LiveApart(l, s, x, q);
          }
          RunIsOwned(l, Play(l, s, x), up, events[1..], local[up := x], p);
        case ChangePlayer(to) =>
          forall q: nat | IsPlayer(q) ensures local[q] == View(l, Switch(l, s, up, to), to, q) {
            SwitchKeepsViews(l, s, up, to, q);
          }
          RunIsOwned(l, Switch(l, s, up, to), to, events[1..], local, p);
      }
    }
  }

  // player_start_game: everything is zero.
  function StartGame(l: Layout, s: State): (s': State)
    requires Shaped(l, s)
    ensures Shaped(l, s')
  {
    var n := SaveBase(l, MAX_PLAYERS + 1);
    State(Zeros(l.lamps), Zeros(l.flags), Zeros(n) + s.ram[n..])
  }

  // Every player starts with all data zero.
  lemma StartsZero(l: Layout, s: State, p: nat)
    requires Shaped(l, s) && l.Fits() && IsPlayer(p)
    ensures View(l, StartGame(l, s), 1, p) == Local(Zeros(l.lamps), Zeros(l.flags), Zeros(l.vars))
  {
    hide SaveBase;
    SlotOrder(l, p, MAX_PLAYERS + 1);
    SlotOrder(l, 1, MAX_PLAYERS + 1);
    var b, ram := SaveBase(l, p), StartGame(l, s).ram;
    assert ram[b..b + l.Record()] == Zeros(l.Record());
    assert ram[..l.vars] == Zeros(l.vars);
    UnflatFlat(l, Local(Zeros(l.lamps), Zeros(l.flags), Zeros(l.vars)));
    assert Zeros(l.Record()) == Flat(Local(Zeros(l.lamps), Zeros(l.flags), Zeros(l.vars)));
  }
}
