/**
 The lamp-effect allocator as a state machine over slots.  Slot i is the task
 group GID_LEFF_BASE + i.  The imperative allocator in LeffTable.dfy computes
 exactly these steps.
 */
module Leff {
  import opened LampSets

  const MAX_RUNNING_LEFFS := 8
  const LEFF_NULL := 0

  // An effect's priority and the lamps it needs.
  datatype Effect = Effect(prio: nat, lamps: set<nat>)

  type Table = t: seq<Effect> | forall i | 0 <= i < |t| :: t[i].lamps <= AllLamps()

  /**
   running: the effect in each slot; next: the slot tried first; free: lamps
   nobody holds; data: lamps an effect has turned on; tasks: slots whose task
   exists.
   */
  datatype State = State(running: seq<nat>, next: nat, free: set<nat>, data: set<nat>, tasks: set<nat>)

  // The slot of the task that makes a call; any number from
  // MAX_RUNNING_LEFFS on means a task that runs no effect.
  type Caller = nat

  predicate WellFormed(t: Table, s: State) {
    && |s.running| == MAX_RUNNING_LEFFS
    && s.next < MAX_RUNNING_LEFFS
    && forall i | 0 <= i < MAX_RUNNING_LEFFS :: s.running[i] < |t|
  }

  // The lamps held by slot i.
  function Held(t: Table, running: seq<nat>, i: nat): set<nat>
    requires i < |running| && running[i] < |t|
  {
    if running[i] == LEFF_NULL then {} else t[running[i]].lamps
  }

  // What every step keeps, whoever makes the call.
  ghost predicate Resources(t: Table, s: State) {
    && WellFormed(t, s)
    && (forall i, j | 0 <= i < j < MAX_RUNNING_LEFFS && s.running[i] != LEFF_NULL :: s.running[i] != s.running[j])
    && (forall i, j | 0 <= i < j < MAX_RUNNING_LEFFS :: Held(t, s.running, i) !! Held(t, s.running, j))
    && FreeIsComplement(t, s)
    && s.data !! s.free
    && s.data <= AllLamps()
  }

  // A slot names an effect exactly when its task exists.
  ghost predicate TasksAgree(s: State) {
    && |s.running| == MAX_RUNNING_LEFFS
    && (forall i | 0 <= i < MAX_RUNNING_LEFFS :: i in s.tasks <==> s.running[i] != LEFF_NULL)
    && (forall i | i in s.tasks :: i < MAX_RUNNING_LEFFS)
  }

  ghost predicate Inv(t: Table, s: State) {
    Resources(t, s) && TasksAgree(s)
  }

  // The free set is the complement of what the running effects hold.
  ghost predicate FreeIsComplement(t: Table, s: State)
    requires WellFormed(t, s)
  {
    && (forall l | l in s.free :: l in AllLamps())
    && (forall l | l in AllLamps() :: l in s.free <==> forall i | 0 <= i < MAX_RUNNING_LEFFS :: l !in Held(t, s.running, i))
  }

  // ---------- the steps ----------

  function Init(): State {
    State(NoneRunning(), 0, AllLamps(), {}, {})
  }

  function NoneRunning(): (r: seq<nat>)
  {
    seq(MAX_RUNNING_LEFFS, _ => LEFF_NULL)
  }

  // The first slot from k on that runs the effect, or -1.
  function FindFrom(running: seq<nat>, id: nat, k: nat): (i: int)
    requires k <= |running|
    ensures -1 <= i < |running|
    ensures i >= 0 ==> k <= i && running[i] == id
    ensures forall j | k <= j < (if i < 0 then |running| else i) :: running[j] != id
    decreases |running| - k
  {
    if k == |running| then -1
    else if running[k] == id then k
    else FindFrom(running, id, k + 1)
  }

  function Find(running: seq<nat>, id: nat): (i: int)
    ensures -1 <= i < |running|
    ensures i >= 0 ==> running[i] == id
    ensures i < 0 ==> id !in running
  {
    FindFrom(running, id, 0)
  }

  function Successor(slot: nat): nat {
    if slot + 1 == MAX_RUNNING_LEFFS then 0 else slot + 1
  }

  // Killing a task group spares the caller.
  function Kill(tasks: set<nat>, slot: nat, caller: Caller): set<nat> {
    if slot == caller then tasks else tasks - {slot}
  }

  function Close(t: Table, s: State, slot: nat): (s': State)
    requires WellFormed(t, s) && slot < MAX_RUNNING_LEFFS
    ensures WellFormed(t, s')
  {
    var res := t[s.running[slot]].lamps;
    s.(running := s.running[slot := LEFF_NULL], free := s.free + res, data := s.data - res)
  }

  function Stop(t: Table, s: State, id: nat, caller: Caller): (s': State)
    requires WellFormed(t, s)
    ensures WellFormed(t, s')
  {
    var i := Find(s.running, id);
    if i < 0 then s else Close(t, s.(tasks := Kill(s.tasks, i, caller)), i)
  }

  // The slot search of leff_gid_alloc, which starts at `next`, has reached
  // `gid` and gives up (-1) when it comes round again.
  function AllocFrom(tasks: set<nat>, first: nat, gid: nat): (slot: int)
    requires first < MAX_RUNNING_LEFFS && gid < MAX_RUNNING_LEFFS
    ensures -1 <= slot < MAX_RUNNING_LEFFS
    ensures slot >= 0 ==> slot !in tasks
    decreases (first + MAX_RUNNING_LEFFS - 1 - gid) % MAX_RUNNING_LEFFS
  {
    if gid !in tasks then gid
    else if Successor(gid) == first then -1
    else AllocFrom(tasks, first, Successor(gid))
  }

  predicate Overlaps(t: Table, running: seq<nat>, i: nat, id: nat)
    requires i < |running| && running[i] < |t| && id < |t|
  {
    running[i] != LEFF_NULL && !(t[running[i]].lamps !! t[id].lamps)
  }

  // Slot i holds lamps the new effect needs, and is at least as important.
  predicate Blocks(t: Table, running: seq<nat>, i: nat, id: nat)
    requires i < |running| && running[i] < |t| && id < |t|
  {
    Overlaps(t, running, i, id) && t[running[i]].prio >= t[id].prio
  }

  predicate Blocked(t: Table, s: State, id: nat)
    requires WellFormed(t, s) && id < |t|
  {
    exists i | 0 <= i < MAX_RUNNING_LEFFS :: Blocks(t, s.running, i, id)
  }

  // The second loop of leff_can_preempt, from slot k on.
  function PreemptFrom(t: Table, s: State, id: nat, caller: Caller, k: nat): (s': State)
    requires WellFormed(t, s) && id < |t| && k <= MAX_RUNNING_LEFFS
    ensures WellFormed(t, s')
    decreases MAX_RUNNING_LEFFS - k
  {
    if k == MAX_RUNNING_LEFFS then s
    else if Overlaps(t, s.running, k, id) && t[s.running[k]].prio < t[id].prio then
      PreemptFrom(t, Stop(t, s, s.running[k], caller), id, caller, k + 1)
    else
      PreemptFrom(t, s, id, caller, k + 1)
  }

  // What starting does once a slot is reserved.
  function Launch(t: Table, s: State, id: nat, slot: nat): (s': State)
    requires WellFormed(t, s) && id < |t| && slot < MAX_RUNNING_LEFFS
    ensures WellFormed(t, s')
  {
    s.(running := s.running[slot := id], free := s.free - t[id].lamps, tasks := s.tasks + {slot})
  }

  function Start(t: Table, s: State, id: nat, caller: Caller): (s': State)
    requires WellFormed(t, s) && id < |t|
    ensures WellFormed(t, s')
  {
    if Find(s.running, id) >= 0 then s
    else
      var slot := AllocFrom(s.tasks, s.next, s.next);
      if slot < 0 then s
      else
        var s1 := s.(next := Successor(slot));
        if t[id].lamps <= s.free then Launch(t, s1, id, slot)
        else if Blocked(t, s, id) then s1
        else Launch(t, PreemptFrom(t, s1, id, caller, 0), id, slot)
  }

  function Restart(t: Table, s: State, id: nat, caller: Caller): (s': State)
    requires WellFormed(t, s) && id < |t|
    ensures WellFormed(t, s')
  {
    var i := Find(s.running, id);
    if i < 0 then Start(t, s, id, caller)
    else s.(data := s.data - t[id].lamps, tasks := Kill(s.tasks, i, caller) + {i})
  }

  // leff_exit, called by the task of the slot.
  function Exit(t: Table, s: State, slot: nat): (s': State)
    requires WellFormed(t, s) && slot < MAX_RUNNING_LEFFS
    ensures WellFormed(t, s')
  {
    var s1 := Close(t, s, slot);
    s1.(tasks := s1.tasks - {slot})
  }

  function StopAll(s: State, caller: Caller): State {
    State(NoneRunning(), s.next, AllLamps(), {}, s.tasks * {caller})
  }

  // leff_on, leff_off and leff_toggle end by setting one data bit.
  function Draw(s: State, lamp: nat, on: bool): State {
    s.(data := if on then s.data + {lamp} else s.data - {lamp})
  }

  // ---------- what the steps keep ----------

  lemma CloseKeeps(t: Table, s: State, i: nat)
    requires Resources(t, s) && i < MAX_RUNNING_LEFFS && s.running[i] != LEFF_NULL
    ensures Resources(t, Close(t, s, i))
  {
    var s' := Close(t, s, i);
    var res := Held(t, s.running, i);
    assert forall j: nat | j < MAX_RUNNING_LEFFS && j != i :: Held(t, s'.running, j) == Held(t, s.running, j);
    forall l | l in AllLamps()
      ensures l in s'.free <==> forall j | 0 <= j < MAX_RUNNING_LEFFS :: l !in Held(t, s'.running, j)
    {
      if l in res {
        assert forall j: nat | j < MAX_RUNNING_LEFFS && j != i :: Held(t, s.running, j) !! res;
      }
    }
  }

  // Lamps needed by a stopped effect are the caller's to take.
  lemma LaunchKeeps(t: Table, s: State, id: nat, slot: nat)
    requires Resources(t, s) && id < |t| && id != LEFF_NULL && slot < MAX_RUNNING_LEFFS
    requires s.running[slot] == LEFF_NULL && id !in s.running
    requires forall i: nat | i < MAX_RUNNING_LEFFS :: Held(t, s.running, i) !! t[id].lamps
    ensures Resources(t, Launch(t, s, id, slot))
  {
    var s' := Launch(t, s, id, slot);
    assert forall j: nat | j < MAX_RUNNING_LEFFS && j != slot :: Held(t, s'.running, j) == Held(t, s.running, j);
    assert Held(t, s'.running, slot) == t[id].lamps;
    forall l | l in AllLamps()
      ensures l in s'.free <==> forall j | 0 <= j < MAX_RUNNING_LEFFS :: l !in Held(t, s'.running, j)
    {
      if forall j | 0 <= j < MAX_RUNNING_LEFFS :: l !in Held(t, s'.running, j) {
        assert l !in Held(t, s'.running, slot);
        forall j: nat | j < MAX_RUNNING_LEFFS ensures l !in Held(t, s.running, j) {
          assert l !in Held(t, s'.running, j);
        }
      }
    }
  }

  predicate Victim(t: Table, running: seq<nat>, i: nat, id: nat)
    requires i < |running| && running[i] < |t| && id < |t|
  {
    Overlaps(t, running, i, id) && t[running[i]].prio < t[id].prio
  }

  // The slots from k on that make way for the new effect.
  function Victims(t: Table, running: seq<nat>, id: nat, k: nat): set<nat>
    requires |running| == MAX_RUNNING_LEFFS && id < |t|
    requires forall i | 0 <= i < MAX_RUNNING_LEFFS :: running[i] < |t|
  {
    set i: nat | k <= i < MAX_RUNNING_LEFFS && Victim(t, running, i, id)
  }

  lemma VictimsTail(t: Table, running: seq<nat>, later: seq<nat>, id: nat, k: nat)
    requires |running| == |later| == MAX_RUNNING_LEFFS && id < |t| && k < MAX_RUNNING_LEFFS
    requires forall i | 0 <= i < MAX_RUNNING_LEFFS :: running[i] < |t| && later[i] < |t|
    requires forall i | k < i < MAX_RUNNING_LEFFS :: later[i] == running[i]
    ensures Victims(t, later, id, k + 1) == Victims(t, running, id, k) - {k}
    ensures k in Victims(t, running, id, k) <==> Victim(t, running, k, id)
  {
  }

  // Some of the given slots holds the lamp.
  ghost predicate HeldBy(t: Table, s: State, slots: set<nat>, lamp: nat)
    requires WellFormed(t, s)
  {
    exists i | i in slots && i < MAX_RUNNING_LEFFS :: lamp in Held(t, s.running, i)
  }

  // s' is s with the given slots closed: their lamps are dark, every other lamp
  // is as it was, and the caller's task survives.
  ghost predicate Closed(t: Table, s: State, s': State, slots: set<nat>, caller: Caller)
    requires WellFormed(t, s)
  {
    && |s.running| == |s'.running|
    && s'.next == s.next
    && (forall i | 0 <= i < |s.running| :: s'.running[i] == if i in slots then LEFF_NULL else s.running[i])
    && s'.tasks == s.tasks - (slots - {caller})
    && (forall l :: l in s'.data <==> l in s.data && !HeldBy(t, s, slots, l))
  }

  lemma ClosedCompose(t: Table, s: State, s1: State, s2: State, k: nat, slots: set<nat>, caller: Caller)
    requires WellFormed(t, s) && WellFormed(t, s1) && k < MAX_RUNNING_LEFFS
    requires k in slots && Closed(t, s, s1, {k}, caller) && Closed(t, s1, s2, slots - {k}, caller)
    ensures Closed(t, s, s2, slots, caller)
  {
    forall l ensures HeldBy(t, s, slots, l) <==> HeldBy(t, s, {k}, l) || HeldBy(t, s1, slots - {k}, l) {
      HeldSplits(t, s, s1, k, slots, l);
    }
  }

  lemma HeldSplits(t: Table, s: State, s1: State, k: nat, slots: set<nat>, lamp: nat)
    requires WellFormed(t, s) && WellFormed(t, s1) && k < MAX_RUNNING_LEFFS && k in slots
    requires forall i | 0 <= i < MAX_RUNNING_LEFFS && i != k :: s1.running[i] == s.running[i]
    ensures HeldBy(t, s, slots, lamp) <==> HeldBy(t, s, {k}, lamp) || HeldBy(t, s1, slots - {k}, lamp)
  {
    if i :| i in slots && i < MAX_RUNNING_LEFFS && lamp in Held(t, s.running, i) {
      if i == k { assert k in {k}; } else { assert lamp in Held(t, s1.running, i); }
    }
    if i :| i in slots - {k} && i < MAX_RUNNING_LEFFS && lamp in Held(t, s1.running, i) {
      assert lamp in Held(t, s.running, i);
    }
  }

  lemma StopExact(t: Table, s: State, k: nat, caller: Caller)
    requires Resources(t, s) && k < MAX_RUNNING_LEFFS && s.running[k] != LEFF_NULL
    ensures Resources(t, Stop(t, s, s.running[k], caller))
    ensures Closed(t, s, Stop(t, s, s.running[k], caller), {k}, caller)
  {
    assert Find(s.running, s.running[k]) == k;
    CloseKeeps(t, s.(tasks := Kill(s.tasks, k, caller)), k);
    forall l ensures HeldBy(t, s, {k}, l) <==> l in Held(t, s.running, k) {
      assert k in {k};
    }
  }

  // An effect that exits gives back everything it had, and nobody else loses
  // or gains anything: its slot is idle, its task gone, its lamps free and dark.
  lemma ExitExact(t: Table, s: State, slot: nat)
    requires Inv(t, s) && slot in s.tasks
    ensures var s', res := Exit(t, s, slot), Held(t, s.running, slot);
      && s'.running[slot] == LEFF_NULL && slot !in s'.tasks
      && (forall i: nat | i < MAX_RUNNING_LEFFS && i != slot :: s'.running[i] == s.running[i])
      && (forall k | k != slot :: k in s'.tasks <==> k in s.tasks)
      && (forall l | l in res :: l in s'.free && l !in s'.data)
      && (forall l | l !in res :: (l in s'.free <==> l in s.free) && (l in s'.data <==> l in s.data))
      && s'.next == s.next
  {
    assert s.running[slot] != LEFF_NULL;
  }

  // Preemption stops exactly the overlapping effects of lower priority.
  lemma {:induction false} PreemptExact(t: Table, s: State, id: nat, caller: Caller, k: nat)
    requires Resources(t, s) && id < |t| && k <= MAX_RUNNING_LEFFS
    ensures Resources(t, PreemptFrom(t, s, id, caller, k))
    ensures Closed(t, s, PreemptFrom(t, s, id, caller, k), Victims(t, s.running, id, k), caller)
    decreases MAX_RUNNING_LEFFS - k
  {
    hide Resources, Stop, Closed, Victims;
    ResourcesFormed(t, s);
    if k == MAX_RUNNING_LEFFS {
      NoVictims(t, s, id, caller);
    } else if Victim(t, s.running, k, id) {
      StopExact(t, s, k, caller);
      var s1 := Stop(t, s, s.running[k], caller);
      PreemptExact(t, s1, id, caller, k + 1);
      StopVictims(t, s, s1, k, id, caller);
      ClosedCompose(t, s, s1, PreemptFrom(t, s1, id, caller, k + 1), k, Victims(t, s.running, id, k), caller);
    } else {
      PreemptExact(t, s, id, caller, k + 1);
      VictimsTail(t, s.running, s.running, id, k);
      assert Victims(t, s.running, id, k) - {k} == Victims(t, s.running, id, k);
    }
  }

  lemma ResourcesFormed(t: Table, s: State)
    requires Resources(t, s)
    ensures WellFormed(t, s)
  {
  }

  lemma NoVictims(t: Table, s: State, id: nat, caller: Caller)
    requires WellFormed(t, s) && id < |t|
    ensures Closed(t, s, s, Victims(t, s.running, id, MAX_RUNNING_LEFFS), caller)
  {
    assert Victims(t, s.running, id, MAX_RUNNING_LEFFS) == {};
  }

  lemma StopVictims(t: Table, s: State, s1: State, k: nat, id: nat, caller: Caller)
    requires WellFormed(t, s) && WellFormed(t, s1) && k < MAX_RUNNING_LEFFS && id < |t|
    requires Closed(t, s, s1, {k}, caller) && Victim(t, s.running, k, id)
    ensures Victims(t, s1.running, id, k + 1) == Victims(t, s.running, id, k) - {k} && k in Victims(t, s.running, id, k)
  {
    VictimsTail(t, s.running, s1.running, id, k);
  }

  // How many slots past `first`, going round, a slot lies.
  function Distance(first: nat, slot: nat): nat
    requires first < MAX_RUNNING_LEFFS && slot < MAX_RUNNING_LEFFS
  {
    if slot >= first then slot - first else slot + MAX_RUNNING_LEFFS - first
  }

  // The circular search finds the nearest idle slot, and fails only when
  // every slot is busy.
  lemma {:induction false} AllocExact(tasks: set<nat>, first: nat, gid: nat)
    requires first < MAX_RUNNING_LEFFS && gid < MAX_RUNNING_LEFFS
    ensures var slot := AllocFrom(tasks, first, gid);
      forall i | 0 <= i < MAX_RUNNING_LEFFS && Distance(first, gid) <= Distance(first, i)
        && (slot < 0 || Distance(first, i) < Distance(first, slot)) :: i in tasks
    decreases MAX_RUNNING_LEFFS - Distance(first, gid)
  {
    if gid in tasks && Successor(gid) != first {
      AllocExact(tasks, first, Successor(gid));
    }
  }

  // ---------- starting an effect ----------

  // Why a start may leave the running effects alone.
  ghost predicate Refused(t: Table, s: State, id: nat)
    requires WellFormed(t, s) && id < |t|
  {
    || id in s.running
    || (forall i: nat | i < MAX_RUNNING_LEFFS :: i in s.tasks)
    || Blocked(t, s, id)
  }

  // The slot a start takes: the idle slot nearest to `next`.
  ghost predicate Chosen(s: State, slot: nat)
    requires s.next < MAX_RUNNING_LEFFS
  {
    && slot < MAX_RUNNING_LEFFS
    && slot !in s.tasks
    && forall i: nat | i < MAX_RUNNING_LEFFS && i !in s.tasks :: Distance(s.next, slot) <= Distance(s.next, i)
  }

  // Needed lamps are all free exactly when no running effect overlaps.
  lemma FreeMeansNoOverlap(t: Table, s: State, id: nat)
    requires Resources(t, s) && id < |t|
    ensures t[id].lamps <= s.free <==> forall i: nat | i < MAX_RUNNING_LEFFS :: !Overlaps(t, s.running, i, id)
  {
    if t[id].lamps <= s.free {
      forall i: nat | i < MAX_RUNNING_LEFFS ensures !Overlaps(t, s.running, i, id) {
        assert forall l | l in t[id].lamps :: l in AllLamps() && l !in Held(t, s.running, i);
      }
    } else {
      var l :| l in t[id].lamps && l !in s.free;
      assert t[id].lamps <= AllLamps();
      var i: nat :| i < MAX_RUNNING_LEFFS && l in Held(t, s.running, i);
      assert Overlaps(t, s.running, i, id);
    }
  }

  // The slots holding lamps that the effect needs.
  function Rivals(t: Table, running: seq<nat>, id: nat): set<nat>
    requires |running| == MAX_RUNNING_LEFFS && id < |t|
    requires forall i | 0 <= i < MAX_RUNNING_LEFFS :: running[i] < |t|
  {
    set i: nat | i < MAX_RUNNING_LEFFS && Overlaps(t, running, i, id)
  }

  ghost predicate Started(t: Table, s: State, s': State, id: nat, slot: nat, caller: Caller)
    requires WellFormed(t, s) && id < |t|
  {
    var rivals := Rivals(t, s.running, id);
    && |s'.running| == MAX_RUNNING_LEFFS
    && (forall i | i in rivals :: t[s.running[i]].prio < t[id].prio)
    && (forall i: nat | i < MAX_RUNNING_LEFFS ::
         s'.running[i] == if i == slot then id else if i in rivals then LEFF_NULL else s.running[i])
    && s'.tasks == s.tasks - (rivals - {caller}) + {slot}
    && s'.next == Successor(slot)
    && (forall l :: l in s'.data <==> l in s.data && !HeldBy(t, s, rivals, l))
  }

  lemma LaunchAfterStops(t: Table, s: State, s2: State, id: nat, slot: nat, caller: Caller)
    requires Inv(t, s) && id < |t| && id != LEFF_NULL && id !in s.running
    requires slot < MAX_RUNNING_LEFFS && slot !in s.tasks
    requires !Blocked(t, s, id)
    requires Resources(t, s2) && Closed(t, s.(next := Successor(slot)), s2, Rivals(t, s.running, id), caller)
    ensures Resources(t, Launch(t, s2, id, slot))
    ensures Started(t, s, Launch(t, s2, id, slot), id, slot, caller)
  {
    hide FreeIsComplement;
    assert s.running[slot] == LEFF_NULL;
    forall i: nat | i < MAX_RUNNING_LEFFS ensures Held(t, s2.running, i) !! t[id].lamps {
      assert i in Rivals(t, s.running, id) <==> Overlaps(t, s.running, i, id);
    }
    LaunchKeeps(t, s2, id, slot);
    forall i | i in Rivals(t, s.running, id) ensures t[s.running[i]].prio < t[id].prio {
      assert !Blocks(t, s.running, i, id);
    }
  }

  lemma VictimsAreRivals(t: Table, s: State, id: nat)
    requires WellFormed(t, s) && id < |t| && !Blocked(t, s, id)
    ensures Victims(t, s.running, id, 0) == Rivals(t, s.running, id)
  {
    forall i: nat | i < MAX_RUNNING_LEFFS ensures Victim(t, s.running, i, id) <==> Overlaps(t, s.running, i, id) {
      assert !Blocks(t, s.running, i, id);
    }
  }

  lemma RefusedStart(t: Table, s: State, id: nat, caller: Caller)
    requires Inv(t, s) && id < |t| && id != LEFF_NULL && Refused(t, s, id)
    ensures var s' := Start(t, s, id, caller);
      s' == s || exists slot: nat :: Chosen(s, slot) && s' == s.(next := Successor(slot))
  {
    var slot := AllocFrom(s.tasks, s.next, s.next);
    AllocExact(s.tasks, s.next, s.next);
    FreeMeansNoOverlap(t, s, id);
    if slot >= 0 && id !in s.running {
      assert Chosen(s, slot);
      assert Blocked(t, s, id);
    }
  }

  lemma NextSlot(t: Table, s: State)
    requires Inv(t, s) && exists i: nat :: i < MAX_RUNNING_LEFFS && i !in s.tasks
    ensures WellFormed(t, s)
    ensures var slot := AllocFrom(s.tasks, s.next, s.next);
      slot >= 0 && Chosen(s, slot) && Resources(t, s.(next := Successor(slot)))
  {
    AllocExact(s.tasks, s.next, s.next);
    hide AllocFrom;
  }

  lemma AllowedStart(t: Table, s: State, id: nat, caller: Caller)
    requires Inv(t, s) && id < |t| && id != LEFF_NULL && !Refused(t, s, id)
    ensures var s' := Start(t, s, id, caller);
      && Resources(t, s')
      && exists slot: nat :: Chosen(s, slot) && Started(t, s, s', id, slot, caller)
  {
    hide AllocFrom, PreemptFrom, Launch, Started, Chosen, Overlaps, Blocked, Resources, TasksAgree;
    NextSlot(t, s);
    var slot := AllocFrom(s.tasks, s.next, s.next);
    FreeMeansNoOverlap(t, s, id);
    var s1 := s.(next := Successor(slot));
    if t[id].lamps <= s.free {
      assert Rivals(t, s.running, id) == {};
      LaunchAfterStops(t, s, s1, id, slot, caller);
    } else {
      PreemptExact(t, s1, id, caller, 0);
      VictimsAreRivals(t, s, id);
      LaunchAfterStops(t, s, PreemptFrom(t, s1, id, caller, 0), id, slot, caller);
    }
  }

  // A start either changes no running effect, or runs the new one in the
  // nearest idle slot after stopping exactly the effects that overlap it, all
  // of strictly lower priority.
  lemma StartExact(t: Table, s: State, id: nat, caller: Caller)
    requires Inv(t, s) && id < |t| && id != LEFF_NULL
    ensures var s' := Start(t, s, id, caller);
      && Resources(t, s')
      && (Refused(t, s, id) ==> s' == s || exists slot: nat :: Chosen(s, slot) && s' == s.(next := Successor(slot)))
      && (!Refused(t, s, id) ==> exists slot: nat :: Chosen(s, slot) && Started(t, s, s', id, slot, caller))
  {
    if Refused(t, s, id) {
      RefusedStart(t, s, id, caller);
    } else {
      AllowedStart(t, s, id, caller);
    }
  }

  // ---------- whole runs ----------

  datatype Op =
    | OpStart(id: nat)
    | OpStop(id: nat)
    | OpRestart(id: nat)
    | OpExit
    | OpStopAll
    | OpDraw(lamp: nat, on: bool)

  // Calls as the source intends them: real effect ids, and only effect tasks
  // exit or draw, on their own lamps.
  predicate Callable(t: Table, s: State, op: Op, caller: Caller)
    requires WellFormed(t, s)
  {
    match op
    case OpStart(id) => LEFF_NULL < id < |t|
    case OpStop(id) => LEFF_NULL < id < |t|
    case OpRestart(id) => LEFF_NULL < id < |t|
    case OpExit => caller in s.tasks && caller < MAX_RUNNING_LEFFS
    case OpStopAll => true
    case OpDraw(lamp, _) => caller in s.tasks && caller < MAX_RUNNING_LEFFS && lamp in Held(t, s.running, caller)
  }

  function Step(t: Table, s: State, op: Op, caller: Caller): (s': State)
    requires WellFormed(t, s) && Callable(t, s, op, caller)
  {
    match op
    case OpStart(id) => Start(t, s, id, caller)
    case OpStop(id) => Stop(t, s, id, caller)
    case OpRestart(id) => Restart(t, s, id, caller)
    case OpExit => Exit(t, s, caller)
    case OpStopAll => StopAll(s, caller)
    case OpDraw(lamp, on) => Draw(s, lamp, on)
  }

  // The call does not close the slot of the very task that makes it (which
  // the task system would leave alive).
  ghost predicate SparesCaller(t: Table, s: State, op: Op, caller: Caller)
    requires WellFormed(t, s) && Callable(t, s, op, caller)
  {
    match op
    case OpStart(id) => Refused(t, s, id) || caller !in Rivals(t, s.running, id)
    case OpStop(id) => caller >= MAX_RUNNING_LEFFS || s.running[caller] != id
    case OpRestart(id) => Refused(t, s, id) || caller !in Rivals(t, s.running, id)
    case OpExit => true
    case OpStopAll => caller !in s.tasks
    case OpDraw(_, _) => true
  }

  lemma StartedTasksIff(t: Table, s: State, s': State, id: nat, slot: nat, caller: Caller)
    requires WellFormed(t, s) && TasksAgree(s) && LEFF_NULL < id < |t|
    requires Chosen(s, slot) && Started(t, s, s', id, slot, caller)
    ensures TasksAgree(s') <==> caller !in Rivals(t, s.running, id)
  {
    if caller in Rivals(t, s.running, id) {
      assert s.running[caller] != LEFF_NULL && s'.running[caller] == LEFF_NULL;
      assert caller in s'.tasks;
    }
  }

  lemma StartInvIff(t: Table, s: State, id: nat, caller: Caller)
    requires Inv(t, s) && LEFF_NULL < id < |t|
    ensures Inv(t, Start(t, s, id, caller)) <==> SparesCaller(t, s, OpStart(id), caller)
  {
    StartExact(t, s, id, caller);
    if !Refused(t, s, id) {
      var s' := Start(t, s, id, caller);
      var slot: nat :| Chosen(s, slot) && Started(t, s, s', id, slot, caller);
      StartedTasksIff(t, s, s', id, slot, caller);
    }
  }

  lemma StopInvIff(t: Table, s: State, id: nat, caller: Caller)
    requires Inv(t, s) && LEFF_NULL < id < |t|
    ensures Inv(t, Stop(t, s, id, caller)) <==> SparesCaller(t, s, OpStop(id), caller)
  {
    var i := Find(s.running, id);
    if i >= 0 {
      StopExact(t, s, i, caller);
    }
  }

  lemma RestartKeeps(t: Table, s: State, id: nat, caller: Caller)
    requires Inv(t, s) && LEFF_NULL < id < |t| && id in s.running
    ensures Inv(t, Restart(t, s, id, caller))
  {
  }

  // Restarting a running effect darkens its lamps and leaves it in its slot with
  // a live task; nothing else changes.  An effect that does not run is started.
  lemma RestartExact(t: Table, s: State, id: nat, caller: Caller)
    requires Inv(t, s) && LEFF_NULL < id < |t|
    ensures id !in s.running ==> Restart(t, s, id, caller) == Start(t, s, id, caller)
    ensures id in s.running ==> var s' := Restart(t, s, id, caller);
      && s'.running == s.running && s'.next == s.next && s'.free == s.free && s'.tasks == s.tasks
      && (forall l :: l in s'.data <==> l in s.data && l !in t[id].lamps)
  {
  }

  // Stopping all leaves no effect, no lamp taken and none lit, and at most the
  // caller's own task; the search for a slot goes on where it was.
  lemma StopAllExact(s: State, caller: Caller)
    ensures var s' := StopAll(s, caller);
      && |s'.running| == MAX_RUNNING_LEFFS && (forall i: nat | i < MAX_RUNNING_LEFFS :: s'.running[i] == LEFF_NULL)
      && (forall l: nat :: l in s'.free <==> l < NUM_LAMPS) && s'.data == {}
      && (forall k :: k in s'.tasks <==> k in s.tasks && k == caller)
      && s'.next == s.next
  {
  }

  // Drawing sets exactly one lamp.
  lemma DrawExact(s: State, lamp: nat, on: bool)
    ensures var s' := Draw(s, lamp, on);
      && (forall l :: l in s'.data <==> if l == lamp then on else l in s.data)
      && s'.running == s.running && s'.next == s.next && s'.free == s.free && s'.tasks == s.tasks
  {
  }

  lemma IdleInv(t: Table, next: nat)
    requires |t| > 0 && next < MAX_RUNNING_LEFFS
    ensures Inv(t, State(NoneRunning(), next, AllLamps(), {}, {}))
  {
  }

  // The exact condition under which a call keeps the allocator consistent.
  lemma StepInvIff(t: Table, s: State, op: Op, caller: Caller)
    requires Inv(t, s) && Callable(t, s, op, caller)
    ensures Inv(t, Step(t, s, op, caller)) <==> SparesCaller(t, s, op, caller)
  {
    match op
    case OpStart(id) =>
      StartInvIff(t, s, id, caller);
    case OpStop(id) =>
      StopInvIff(t, s, id, caller);
    case OpRestart(id) =>
      if id in s.running { RestartKeeps(t, s, id, caller); } else { StartInvIff(t, s, id, caller); }
    case OpExit =>
      CloseKeeps(t, s, caller);
    case OpStopAll =>
      assert s.running[0] < |t|;
      if caller in s.tasks {
        assert caller in StopAll(s, caller).tasks && NoneRunning()[caller] == LEFF_NULL;
      } else {
        assert s.tasks * {caller} == {};
        IdleInv(t, s.next);
      }
    case OpDraw(_, _) =>
  }

  // Stopping the null effect frees the null effect's lamps, so it is harmless
  // only when every slot is busy or those lamps are free already.
  lemma StopNullInvIff(t: Table, s: State, caller: Caller)
    requires Inv(t, s) && |t| > 0
    ensures Inv(t, Stop(t, s, LEFF_NULL, caller)) <==> LEFF_NULL !in s.running || t[LEFF_NULL].lamps <= s.free
  {
    var i := Find(s.running, LEFF_NULL);
    if i >= 0 {
      var s' := Stop(t, s, LEFF_NULL, caller);
      assert s'.running == s.running;
      if t[LEFF_NULL].lamps <= s.free {
        assert s'.free == s.free && s'.data == s.data && s'.tasks == s.tasks;
      } else {
        var l :| l in t[LEFF_NULL].lamps && l !in s.free;
        assert l in AllLamps() && l in s'.free;
      }
    }
  }

  datatype Call = Call(op: Op, caller: Caller)

  // Every call of the run is allowed in the state it is made in, and no task
  // stops itself.
  ghost predicate ProperRun(t: Table, s: State, calls: seq<Call>)
    requires WellFormed(t, s)
    decreases |calls|
  {
    calls == [] ||
    (&& Callable(t, s, calls[0].op, calls[0].caller)
     && SparesCaller(t, s, calls[0].op, calls[0].caller)
     && WellFormed(t, Step(t, s, calls[0].op, calls[0].caller))
     && ProperRun(t, Step(t, s, calls[0].op, calls[0].caller), calls[1..]))
  }

  ghost function Run(t: Table, s: State, calls: seq<Call>): State
    requires WellFormed(t, s) && ProperRun(t, s, calls)
    decreases |calls|
  {
    if calls == [] then s else Run(t, Step(t, s, calls[0].op, calls[0].caller), calls[1..])
  }

  // In every reachable state free lamps are exactly those nobody holds, the
  // running effects hold disjoint lamps, no effect runs twice, slots and tasks
  // agree, and no unallocated lamp is on.
  lemma {:induction false} RunKeepsInv(t: Table, s: State, calls: seq<Call>)
    requires Inv(t, s) && ProperRun(t, s, calls)
    ensures Inv(t, Run(t, s, calls))
    decreases |calls|
  {
    if calls != [] {
      StepInvIff(t, s, calls[0].op, calls[0].caller);
      RunKeepsInv(t, Step(t, s, calls[0].op, calls[0].caller), calls[1..]);
    }
  }

  lemma ReachableInv(t: Table, calls: seq<Call>)
    requires |t| > 0 && ProperRun(t, Init(), calls)
    ensures Inv(t, Run(t, Init(), calls))
  {
    IdleInv(t, 0);
    RunKeepsInv(t, Init(), calls);
  }

  // ---------- what goes wrong otherwise ----------

  // A null row with the lamps of the first lamp set, and one effect on them.
  function OneEffect(): Table {
    assert {5} <= AllLamps();
    [Effect(0, {5}), Effect(1, {5})]
  }

  // A task outside the effects starts it.
  lemma OneStarted()
    ensures WellFormed(OneEffect(), Init())
    ensures var s := Start(OneEffect(), Init(), 1, MAX_RUNNING_LEFFS);
      Inv(OneEffect(), s) && s.running[0] == 1 && 5 !in s.free && s.running[1] == LEFF_NULL
  {
    var t := OneEffect();
    IdleInv(t, 0);
    StartInvIff(t, Init(), 1, MAX_RUNNING_LEFFS);
    assert Find(Init().running, 1) < 0;
    assert AllocFrom({}, 0, 0) == 0;
    assert t[1].lamps <= AllLamps();
  }

  // It happens: the effect's own task stops the effect and lives on without a slot.
  lemma SelfStopBreaks()
    ensures WellFormed(OneEffect(), Init())
    ensures var t := OneEffect();
      var s := Stop(t, Start(t, Init(), 1, MAX_RUNNING_LEFFS), 1, 0);
      !Inv(t, s) && 0 in s.tasks && s.running[0] == LEFF_NULL
  {
    OneStarted();
    var s1 := Start(OneEffect(), Init(), 1, MAX_RUNNING_LEFFS);
    StopInvIff(OneEffect(), s1, 1, 0);
    StopExact(OneEffect(), s1, 0, 0);
    assert 0 in s1.tasks;
  }

  // It happens: the null effect is stopped and its lamps, in use, become free.
  lemma NullStopBreaks()
    ensures WellFormed(OneEffect(), Init())
    ensures var t := OneEffect();
      var s := Stop(t, Start(t, Init(), 1, MAX_RUNNING_LEFFS), LEFF_NULL, MAX_RUNNING_LEFFS);
      !Inv(t, s)
  {
    OneStarted();
    var s1 := Start(OneEffect(), Init(), 1, MAX_RUNNING_LEFFS);
    assert s1.running[1] == LEFF_NULL && 5 in OneEffect()[LEFF_NULL].lamps;
    StopNullInvIff(OneEffect(), s1, MAX_RUNNING_LEFFS);
  }
}
