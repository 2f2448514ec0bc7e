/**
 Switch debouncing as steps on values: the interrupt scan, one service pass
 over the debounce queue, and the periodic poll.  SwitchQueue.dfy computes the
 same steps in place.
 */
module Switches {
  import opened Machine

  const MAX_QUEUED_SWITCHES := 16

  // A pending switch; the timer is a signed byte.
  datatype Entry = Entry(id: nat, timer: int)

  /**
   The bit matrices, as the sets of switches whose bit is on, and the debounce
   queue.  raw readings are an input of the scan.
   */
  datatype State = State(
    logical: set<nat>, edge: set<nat>, stable: set<nat>, unstable: set<nat>, queued: set<nat>, queue: seq<Entry>)

  // The debounce time of each switch.
  type Debounce = seq<U8>

  function Signed8(x: int): int { (x + 0x80) % 0x100 - 0x80 }

  function Flip(s: set<nat>, sw: nat): set<nat> {
    if sw in s then s - {sw} else s + {sw}
  }

  // One interrupt-level reading of the switches.
  function Scan(s: State, raw: set<nat>): State {
    var edge := (raw - s.logical) + (s.logical - raw);
    var stable := s.stable + edge * s.edge;
    s.(stable := stable, unstable := s.unstable + (stable - edge), edge := edge)
  }

  function Scans(s: State, raws: seq<set<nat>>): State
    decreases |raws|
  {
    if raws == [] then s else Scans(Scan(s, raws[0]), raws[1..])
  }

  // The interrupts that arrive at each turn of a loop.
  type Interrupts = seq<seq<set<nat>>>

  function First(irq: Interrupts): seq<set<nat>> { if irq == [] then [] else irq[0] }

  function Rest(irq: Interrupts): Interrupts { if irq == [] then [] else irq[1..] }

  // switch_transitioned: latch the new level and restart scanning.
  function Transition(s: State, sw: nat): State {
    s.(logical := Flip(s.logical, sw), stable := s.stable - {sw}, unstable := s.unstable - {sw}, edge := s.edge - {sw})
  }

  // Debouncing failed: restart scanning, level unchanged.
  function GiveUp(s: State, sw: nat): State {
    s.(stable := s.stable - {sw}, unstable := s.unstable - {sw})
  }

  function QueueAdd(d: Debounce, s: State, sw: nat): State
    requires sw < |d|
  {
    if |s.queue| < MAX_QUEUED_SWITCHES then
      s.(queue := s.queue + [Entry(sw, Signed8(d[sw]))], queued := s.queued + {sw})
    else s
  }

  // The last entry replaces the removed one.
  function QueueRemove(s: State, i: nat): State
    requires i < |s.queue|
  {
    s.(queue := SwapOut(s.queue, i), queued := s.queued - {s.queue[i].id})
  }

  // One turn of the service loop, at entry i.
  function Retire(s: State, i: nat): State
    requires i < |s.queue|
  {
    var id := s.queue[i].id;
    QueueRemove(if id in s.unstable then GiveUp(s, id) else Transition(s, id), i)
  }

  function Age(timer: int, elapsed: U8): int { Signed8(timer - elapsed) }

  // The service loop: its state and the entry it looks at.
  datatype Cursor = Cursor(s: State, i: nat)

  // One turn of the service loop, after the interrupts that came before it.
  function ServiceTurn(s: State, i: nat, elapsed: U8): (c: Cursor)
    requires i < |s.queue|
    ensures c.i <= |c.s.queue| && |c.s.queue| - c.i < |s.queue| - i
  {
    var aged := s.(queue := s.queue[i := Entry(s.queue[i].id, Age(s.queue[i].timer, elapsed))]);
    if aged.queue[i].timer <= 0 then Cursor(Retire(aged, i), i) else Cursor(aged, i + 1)
  }

  function ServiceFrom(s: State, i: nat, elapsed: U8, irq: Interrupts): State
    requires i <= |s.queue|
    decreases |s.queue| - i
  {
    if i == |s.queue| then s
    else
      ScansKeepQueue(s, First(irq));
      var c := ServiceTurn(Scans(s, First(irq)), i, elapsed);
      ServiceFrom(c.s, c.i, elapsed, Rest(irq))
  }

  function UpdateStable(d: Debounce, s: State, sw: nat): State
    requires sw < |d|
  {
    if d[sw] != 0 then QueueAdd(d, s, sw) else Transition(s, sw)
  }

  // The column scan of switch_periodic from switch `sw` on; interrupts arrive
  // between columns.
  function PollFrom(d: Debounce, s: State, sw: nat, irq: Interrupts): State
    requires sw <= |d|
    decreases |d| - sw
  {
    if sw == |d| then s
    else
      var s0 := if sw % 8 == 0 then Scans(s, First(irq)) else s;
      var irq' := if sw % 8 == 0 then Rest(irq) else irq;
      PollFrom(d, if sw in s0.stable && sw !in s0.queued then UpdateStable(d, s0, sw) else s0, sw + 1, irq')
  }

  lemma {:induction false} ScansKeepQueue(s: State, raws: seq<set<nat>>)
    ensures var s' := Scans(s, raws);
      && s'.queue == s.queue && s'.queued == s.queued && s'.logical == s.logical
      && s.stable <= s'.stable && s.unstable <= s'.unstable
      && (s.unstable <= s.stable ==> s'.unstable <= s'.stable)
    decreases |raws|
  {
    if raws != [] {
      ScansKeepQueue(Scan(s, raws[0]), raws[1..]);
    }
  }

  // ---------- the invariant ----------

  ghost predicate Inv(s: State) {
    && |s.queue| <= MAX_QUEUED_SWITCHES
    && (forall i, j | 0 <= i < j < |s.queue| :: s.queue[i].id != s.queue[j].id)
    && (forall i | 0 <= i < |s.queue| :: s.queue[i].id in s.queued)
    && (forall sw | sw in s.queued :: exists i :: 0 <= i < |s.queue| && s.queue[i].id == sw)
    && s.queued <= s.stable
    && s.unstable <= s.stable
  }

  lemma RetireKeeps(s: State, i: nat)
    requires Inv(s) && i < |s.queue|
    ensures Inv(Retire(s, i))
  {
    var s', last := Retire(s, i), |s.queue| - 1;
    forall sw | sw in s'.queued ensures exists j :: 0 <= j < |s'.queue| && s'.queue[j].id == sw {
      var j :| 0 <= j < |s.queue| && s.queue[j].id == sw;
      assert s'.queue[if j == last then i else j].id == sw;
    }
  }

  lemma AgeKeeps(s: State, i: nat, timer: int)
    requires Inv(s) && i < |s.queue|
    ensures Inv(s.(queue := s.queue[i := Entry(s.queue[i].id, timer)]))
  {
    var s' := s.(queue := s.queue[i := Entry(s.queue[i].id, timer)]);
    forall sw | sw in s'.queued ensures exists j :: 0 <= j < |s'.queue| && s'.queue[j].id == sw {
      var j :| 0 <= j < |s.queue| && s.queue[j].id == sw;
      assert s'.queue[j].id == sw;
    }
  }

  lemma TurnKeeps(s: State, i: nat, elapsed: U8)
    requires Inv(s) && i < |s.queue|
    ensures Inv(ServiceTurn(s, i, elapsed).s)
  {
    var timer := Age(s.queue[i].timer, elapsed);
    AgeKeeps(s, i, timer);
    if timer <= 0 {
      RetireKeeps(s.(queue := s.queue[i := Entry(s.queue[i].id, timer)]), i);
    }
  }

  lemma {:induction false} ServiceKeeps(s: State, i: nat, elapsed: U8, irq: Interrupts)
    requires Inv(s) && i <= |s.queue|
    ensures Inv(ServiceFrom(s, i, elapsed, irq))
    decreases |s.queue| - i
  {
    if i < |s.queue| {
      ScansKeepQueue(s, First(irq));
      var s0 := Scans(s, First(irq));
      TurnKeeps(s0, i, elapsed);
      ServiceKeeps(ServiceTurn(s0, i, elapsed).s, ServiceTurn(s0, i, elapsed).i, elapsed, Rest(irq));
    }
  }

  lemma UpdateStableKeeps(d: Debounce, s: State, sw: nat)
    requires Inv(s) && sw < |d| && sw in s.stable && sw !in s.queued
    ensures Inv(UpdateStable(d, s, sw))
  {
    var s' := UpdateStable(d, s, sw);
    forall k | k in s'.queued ensures exists j :: 0 <= j < |s'.queue| && s'.queue[j].id == k {
      if k in s.queued {
        var j :| 0 <= j < |s.queue| && s.queue[j].id == k;
        assert s'.queue[j].id == k;
      } else {
        assert s'.queue[|s.queue|].id == k;
      }
    }
  }

  lemma {:induction false} PollKeeps(d: Debounce, s: State, sw: nat, irq: Interrupts)
    requires Inv(s) && sw <= |d|
    ensures Inv(PollFrom(d, s, sw, irq))
    decreases |d| - sw
  {
    if sw < |d| {
      ScansKeepQueue(s, First(irq));
      var s0 := if sw % 8 == 0 then Scans(s, First(irq)) else s;
      assert Inv(s0);
      if sw in s0.stable && sw !in s0.queued {
        UpdateStableKeeps(d, s0, sw);
      }
      PollKeeps(d, if sw in s0.stable && sw !in s0.queued then UpdateStable(d, s0, sw) else s0, sw + 1,
                if sw % 8 == 0 then Rest(irq) else irq);
    }
  }

  // ---------- what scanning does ----------

  // The reading shows another level than the one last latched.
  predicate Differs(s: State, raw: set<nat>, sw: nat) { sw in raw <==> sw !in s.logical }

  ghost predicate DiffersTwice(s: State, raws: seq<set<nat>>, sw: nat) {
    exists m, n | 0 <= m < n < |raws| && n == m + 1 :: Differs(s, raws[m], sw) && Differs(s, raws[n], sw)
  }

  // A switch becomes stable exactly when two readings in a row differ from the
  // level latched, the one before the first of these included.
  lemma {:induction false} StableIff(s: State, raws: seq<set<nat>>, sw: nat)
    ensures sw in Scans(s, raws).stable <==>
      sw in s.stable || (sw in s.edge && raws != [] && Differs(s, raws[0], sw)) || DiffersTwice(s, raws, sw)
    decreases |raws|
  {
    if raws != [] {
      var s1, rest := Scan(s, raws[0]), raws[1..];
      StableIff(s1, rest, sw);
      assert forall n | 0 <= n < |rest| :: rest[n] == raws[n + 1] && (Differs(s1, rest[n], sw) <==> Differs(s, rest[n], sw));
      if DiffersTwice(s1, rest, sw) {
        var m, n :| 0 <= m < n < |rest| && n == m + 1 && Differs(s1, rest[m], sw) && Differs(s1, rest[n], sw);
        assert Differs(s, raws[m + 1], sw) && Differs(s, raws[n + 1], sw);
      }
      if DiffersTwice(s, raws, sw) {
        var m, n :| 0 <= m < n < |raws| && n == m + 1 && Differs(s, raws[m], sw) && Differs(s, raws[n], sw);
        if m > 0 { assert Differs(s1, rest[m - 1], sw) && Differs(s1, rest[n - 1], sw); }
      }
    }
  }

  // A stable switch is marked unstable exactly by a reading of the latched level.
  lemma {:induction false} UnstableIff(s: State, raws: seq<set<nat>>, sw: nat)
    requires sw in s.stable
    ensures sw in Scans(s, raws).unstable <==> sw in s.unstable || exists n :: 0 <= n < |raws| && !Differs(s, raws[n], sw)
    decreases |raws|
  {
    if raws != [] {
      var s1, rest := Scan(s, raws[0]), raws[1..];
      UnstableIff(s1, rest, sw);
      assert forall n | 0 <= n < |rest| :: rest[n] == raws[n + 1] && (Differs(s1, rest[n], sw) <==> Differs(s, rest[n], sw));
      if n :| 0 <= n < |raws| && !Differs(s, raws[n], sw) {
        if n > 0 { assert !Differs(s1, rest[n - 1], sw); }
      }
      if n :| 0 <= n < |rest| && !Differs(s1, rest[n], sw) { assert !Differs(s, raws[n + 1], sw); }
    }
  }

  // Once a switch has transitioned it takes two new readings to make it stable.
  lemma ScansAfresh(s: State, sw: nat, raws: seq<set<nat>>)
    ensures var s' := Transition(s, sw);
      && (sw in s'.logical <==> sw !in s.logical)
      && sw !in s'.stable && sw !in s'.unstable
      && (sw in Scans(s', raws).stable <==> DiffersTwice(s', raws, sw))
  {
    StableIff(Transition(s, sw), raws, sw);
  }

  // ---------- what one pass does ----------

  // The entries that survive, each aged once.
  function Aged(queue: seq<Entry>, elapsed: U8): multiset<Entry> {
    if queue == [] then multiset{}
    else
      var t := Age(queue[0].timer, elapsed);
      (if t > 0 then multiset{Entry(queue[0].id, t)} else multiset{}) + Aged(queue[1..], elapsed)
  }

  lemma {:induction false} AgedJoin(a: seq<Entry>, b: seq<Entry>, elapsed: U8)
    ensures Aged(a + b, elapsed) == Aged(a, elapsed) + Aged(b, elapsed)
  {
    if a == [] {
      assert a + b == b;
    } else {
      assert (a + b)[1..] == a[1..] + b;
      AgedJoin(a[1..], b, elapsed);
    }
  }

  lemma AgedNone(elapsed: U8)
    ensures Aged([], elapsed) == multiset{}
  {
  }

  // The queue with entry i replaced by the last one.
  function SwapOut<T>(q: seq<T>, i: nat): (r: seq<T>)
    requires i < |q|
    ensures |r| == |q| - 1
  {
    q[i := q[|q| - 1]][..|q| - 1]
  }

  lemma SwapSlices<T>(q: seq<T>, i: nat)
    requires i < |q|
    ensures SwapOut(q, i)[..i] == q[..i]
    ensures i < |q| - 1 ==> SwapOut(q, i)[i..] == [q[|q| - 1]] + q[i + 1..|q| - 1]
    ensures i < |q| - 1 ==> q[i..] == [q[i]] + (q[i + 1..|q| - 1] + [q[|q| - 1]])
    ensures i == |q| - 1 ==> SwapOut(q, i)[i..] == [] && q[i..] == [q[i]]
  {
  }

  // Moving the last entry into slot i loses nothing but entry i.
  lemma SwapRemoval(q: seq<Entry>, i: nat, elapsed: U8)
    requires i < |q|
    ensures Aged(q[i..], elapsed) == Aged([q[i]], elapsed) + Aged(SwapOut(q, i)[i..], elapsed)
  {
    hide Aged, SwapOut;
    SwapSlices(q, i);
    var last := |q| - 1;
    if i < last {
      var middle, end := q[i + 1..last], [q[last]];
      AgedJoin([q[i]], middle + end, elapsed);
      AgedJoin(middle, end, elapsed);
      AgedJoin(end, middle, elapsed);
      assert Aged(middle, elapsed) + Aged(end, elapsed) == Aged(end, elapsed) + Aged(middle, elapsed);
    } else {
      AgedNone(elapsed);
    }
  }

  // Entries before i untouched, the others aged once, the overdue ones gone.
  function Outcome(queue: seq<Entry>, i: nat, elapsed: U8): multiset<Entry>
    requires i <= |queue|
  {
    multiset(queue[..i]) + Aged(queue[i..], elapsed)
  }

  lemma RetiredOutcome(q: seq<Entry>, i: nat, elapsed: U8)
    requires i < |q| && Age(q[i].timer, elapsed) <= 0
    ensures Outcome(SwapOut(q, i), i, elapsed) == Outcome(q, i, elapsed)
  {
    SwapSlices(q, i);
    SwapRemoval(q, i, elapsed);
    assert Aged([q[i]], elapsed) == multiset{};
  }

  lemma SurvivingOutcome(q: seq<Entry>, i: nat, elapsed: U8)
    requires i < |q| && Age(q[i].timer, elapsed) > 0
    ensures Outcome(q[i := Entry(q[i].id, Age(q[i].timer, elapsed))], i + 1, elapsed) == Outcome(q, i, elapsed)
  {
    var e := Entry(q[i].id, Age(q[i].timer, elapsed));
    var q' := q[i := e];
    assert q'[..i + 1] == q[..i] + [e];
    assert q'[i + 1..] == q[i..][1..];
  }

  lemma TurnOutcome(s: State, i: nat, elapsed: U8)
    requires i < |s.queue|
    ensures var c := ServiceTurn(s, i, elapsed);
      Outcome(c.s.queue, c.i, elapsed) == Outcome(s.queue, i, elapsed)
  {
    hide Outcome, Age;
    var q := s.queue;
    if Age(q[i].timer, elapsed) <= 0 {
      RetiredOutcome(q, i, elapsed);
      assert ServiceTurn(s, i, elapsed).s.queue == SwapOut(q, i);
    } else {
      SurvivingOutcome(q, i, elapsed);
    }
  }

  // A pass decrements each surviving entry exactly once and removes exactly
  // those whose time is up, whatever interrupts arrive and although removal
  // moves the last entry into the current slot.
  lemma {:induction false} ServiceQueue(s: State, i: nat, elapsed: U8, irq: Interrupts)
    requires i <= |s.queue|
    ensures multiset(ServiceFrom(s, i, elapsed, irq).queue) == Outcome(s.queue, i, elapsed)
    decreases |s.queue| - i
  {
    if i == |s.queue| {
      assert s.queue[..i] == s.queue;
    } else {
      ScansKeepQueue(s, First(irq));
      var s0 := Scans(s, First(irq));
      TurnOutcome(s0, i, elapsed);
      ServiceQueue(ServiceTurn(s0, i, elapsed).s, ServiceTurn(s0, i, elapsed).i, elapsed, Rest(irq));
    }
  }

  // A switch waits in the queue, from entry i on, and its time is up.
  ghost predicate Due(queue: seq<Entry>, i: nat, elapsed: U8, sw: nat) {
    exists k :: i <= k < |queue| && queue[k].id == sw && Age(queue[k].timer, elapsed) <= 0
  }

  lemma TurnDue(q: seq<Entry>, q': seq<Entry>, i: nat, j: nat, elapsed: U8, sw: nat)
    requires i < |q| && forall k, m | 0 <= k < m < |q| :: q[k].id != q[m].id
    requires if Age(q[i].timer, elapsed) <= 0 then j == i && q' == SwapOut(q, i)
             else j == i + 1 && q' == q[i := Entry(q[i].id, Age(q[i].timer, elapsed))]
    ensures if q[i].id == sw then !Due(q', j, elapsed, sw) else Due(q', j, elapsed, sw) == Due(q, i, elapsed, sw)
  {
    if q[i].id != sw && Due(q, i, elapsed, sw) {
      var k :| i <= k < |q| && q[k].id == sw && Age(q[k].timer, elapsed) <= 0;
      assert q'[if j == i && k == |q| - 1 then i else k] == q[k];
    }
  }

  // One turn toggles the level of at most its own switch.
  lemma TurnLevels(s: State, i: nat, elapsed: U8, sw: nat)
    requires Inv(s) && i < |s.queue|
    ensures var c := ServiceTurn(s, i, elapsed);
      && Inv(c.s)
      && (if s.queue[i].id == sw then !Due(c.s.queue, c.i, elapsed, sw)
          else Due(c.s.queue, c.i, elapsed, sw) == Due(s.queue, i, elapsed, sw))
      && (if s.queue[i].id == sw && Age(s.queue[i].timer, elapsed) <= 0 && sw !in s.unstable
          then sw in c.s.logical <==> sw !in s.logical
          else sw in c.s.logical <==> sw in s.logical)
      && (s.queue[i].id != sw ==> (sw in c.s.unstable <==> sw in s.unstable))
      && (sw in c.s.stable <==> sw in s.stable && !(s.queue[i].id == sw && Age(s.queue[i].timer, elapsed) <= 0))
  {
    TurnKeeps(s, i, elapsed);
    var c := ServiceTurn(s, i, elapsed);
    assert Age(s.queue[i].timer, elapsed) <= 0 ==> c.s.queue == SwapOut(s.queue, i);
    TurnDue(s.queue, c.s.queue, i, c.i, elapsed, sw);
  }

  // What a pass does to one switch: toggled when its time is up and it held
  // steady, once; level unchanged when it is not due or known unstable.  A due
  // switch, and no other, is scanned afresh afterwards.
  lemma {:induction false} ServiceLevels(s: State, i: nat, elapsed: U8, irq: Interrupts, sw: nat)
    requires Inv(s) && i <= |s.queue|
    ensures var s' := ServiceFrom(s, i, elapsed, irq);
      && (!Due(s.queue, i, elapsed, sw) || sw in s.unstable ==> (sw in s'.logical <==> sw in s.logical))
      && (Due(s.queue, i, elapsed, sw) && irq == [] && sw !in s.unstable ==> (sw in s'.logical <==> sw !in s.logical))
      && (irq == [] ==> (sw in s'.stable <==> sw in s.stable && !Due(s.queue, i, elapsed, sw)))
    decreases |s.queue| - i
  {
    hide ServiceTurn, Age, SwapOut;
    if i < |s.queue| {
      ScansKeepQueue(s, First(irq));
      var s0 := Scans(s, First(irq));
      var c := ServiceTurn(s0, i, elapsed);
      TurnLevels(s0, i, elapsed, sw);
      ServiceLevels(c.s, c.i, elapsed, Rest(irq), sw);
      assert s.queue[i].id == sw ==> (Due(s.queue, i, elapsed, sw) <==> Age(s.queue[i].timer, elapsed) <= 0) by {
        if Due(s.queue, i, elapsed, sw) && s.queue[i].id == sw {
          var k :| i <= k < |s.queue| && s.queue[k].id == sw && Age(s.queue[k].timer, elapsed) <= 0;
          assert k == i;
        }
      }
    }
  }

  // All that is known of one switch.
  datatype Bits = Bits(logical: bool, edge: bool, stable: bool, unstable: bool)

  function BitsOf(s: State, sw: nat): Bits {
    Bits(sw in s.logical, sw in s.edge, sw in s.stable, sw in s.unstable)
  }

  // The readings of the first n batches of interrupts.
  function Readings(irq: Interrupts, n: nat): seq<set<nat>> {
    if n == 0 then [] else First(irq) + Readings(Rest(irq), n - 1)
  }

  // How many turns come before that of a switch in the queue.
  function TurnsBefore(q: seq<Entry>, i: nat, elapsed: U8, sw: nat): nat
    requires i <= |q|
    decreases |q| - i
  {
    if i == |q| || q[i].id == sw then 0
    else if Age(q[i].timer, elapsed) <= 0 then 1 + TurnsBefore(SwapOut(q, i), i, elapsed, sw)
    else 1 + TurnsBefore(q[i := Entry(q[i].id, Age(q[i].timer, elapsed))], i + 1, elapsed, sw)
  }

  // A scan treats every switch by itself.
  lemma {:induction false} ScansLocal(s: State, t: State, raws: seq<set<nat>>, sw: nat)
    requires BitsOf(s, sw) == BitsOf(t, sw)
    ensures BitsOf(Scans(s, raws), sw) == BitsOf(Scans(t, raws), sw)
    decreases |raws|
  {
    if raws != [] { ScansLocal(Scan(s, raws[0]), Scan(t, raws[0]), raws[1..], sw); }
  }

  lemma {:induction false} ScansJoin(s: State, a: seq<set<nat>>, b: seq<set<nat>>)
    ensures Scans(s, a + b) == Scans(Scans(s, a), b)
    decreases |a|
  {
    if a == [] {
      assert a + b == b;
    } else {
      ScansJoin(Scan(s, a[0]), a[1..], b);
      assert (a + b)[1..] == a[1..] + b;
    }
  }

  lemma TurnOfOther(s: State, i: nat, elapsed: U8, sw: nat)
    requires i < |s.queue| && s.queue[i].id != sw
    ensures var c := ServiceTurn(s, i, elapsed);
      && BitsOf(c.s, sw) == BitsOf(s, sw)
      && TurnsBefore(s.queue, i, elapsed, sw) == 1 + TurnsBefore(c.s.queue, c.i, elapsed, sw)
  {
    var c := ServiceTurn(s, i, elapsed);
    if Age(s.queue[i].timer, elapsed) <= 0 { assert c.s.queue == SwapOut(s.queue, i); }
  }

  // A due switch toggles, once, if and only if the readings taken until its turn
  // comes do not mark it unstable.  The other entries, and when they are
  // served, play no part in that.
  lemma {:induction false} ServiceFate(s: State, i: nat, elapsed: U8, irq: Interrupts, sw: nat)
    requires Inv(s) && i <= |s.queue| && Due(s.queue, i, elapsed, sw)
    ensures var seen := Scans(s, Readings(irq, TurnsBefore(s.queue, i, elapsed, sw) + 1));
      (sw in ServiceFrom(s, i, elapsed, irq).logical) == if sw in seen.unstable then sw in s.logical else sw !in s.logical
    decreases |s.queue| - i
  {
    hide Due, Scans, Inv, ServiceTurn, Age, SwapOut, First, Rest;
    ScansKeepQueue(s, First(irq));
    ScannedInv(s, First(irq));
    DueBound(s.queue, i, elapsed, sw);
    var s0 := Scans(s, First(irq));
    var c := ServiceTurn(s0, i, elapsed);
    TurnLevels(s0, i, elapsed, sw);
    var n := TurnsBefore(s.queue, i, elapsed, sw);
    if s.queue[i].id == sw {
      ServiceLevels(c.s, c.i, elapsed, Rest(irq), sw);
      DueHere(s, i, elapsed, sw);
      assert Readings(irq, 1) == First(irq) + Readings(Rest(irq), 0) == First(irq);
    } else {
      TurnOfOther(s0, i, elapsed, sw);
      ServiceFate(c.s, c.i, elapsed, Rest(irq), sw);
      ScansLocal(c.s, s0, Readings(Rest(irq), n), sw);
      ScansJoin(s, First(irq), Readings(Rest(irq), n));
    }
  }

  // A due switch that shows its old level in any of those readings keeps it.
  lemma BounceRefused(s: State, elapsed: U8, irq: Interrupts, sw: nat)
    requires Inv(s) && Due(s.queue, 0, elapsed, sw)
    requires var raws := Readings(irq, TurnsBefore(s.queue, 0, elapsed, sw) + 1);
      exists n :: 0 <= n < |raws| && !Differs(s, raws[n], sw)
    ensures sw in ServiceFrom(s, 0, elapsed, irq).logical <==> sw in s.logical
  {
    hide ServiceFrom, Scans, Readings, TurnsBefore, Age;
    ServiceFate(s, 0, elapsed, irq, sw);
    UnstableIff(s, Readings(irq, TurnsBefore(s.queue, 0, elapsed, sw) + 1), sw);
  }

  lemma ScannedInv(s: State, raws: seq<set<nat>>)
    requires Inv(s)
    ensures Inv(Scans(s, raws))
  {
    ScansKeepQueue(s, raws);
  }

  lemma DueBound(q: seq<Entry>, i: nat, elapsed: U8, sw: nat)
    requires Due(q, i, elapsed, sw)
    ensures i < |q|
  {
  }

  lemma DueHere(s: State, i: nat, elapsed: U8, sw: nat)
    requires Inv(s) && i < |s.queue| && s.queue[i].id == sw && Due(s.queue, i, elapsed, sw)
    ensures Age(s.queue[i].timer, elapsed) <= 0
  {
    var k :| i <= k < |s.queue| && s.queue[k].id == sw && Age(s.queue[k].timer, elapsed) <= 0;
    assert k == i;
  }

  // An entry is retired when its time is up, unless so much time passed that
  // the signed byte wrapped.
  lemma AgeIff(timer: int, elapsed: U8)
    requires 0 < timer < 0x80
    ensures (Age(timer, elapsed) <= 0 <==> timer <= elapsed) <==> elapsed - timer <= 0x80
    ensures elapsed - timer <= 0x80 ==> Age(timer, elapsed) == timer - elapsed
  {
  }

  // It happens: a switch that is queued for one tick is not looked at for 200
  // and then waits for 57 more.
  lemma LateSwitchWaits(s: State)
    requires s.queue == [Entry(0, 1)]
    ensures ServiceFrom(s, 0, 200, []).queue == [Entry(0, 57)] && ServiceFrom(s, 0, 200, []).logical == s.logical
  {
    assert Age(1, 200) == 57;
    var c := ServiceTurn(Scans(s, []), 0, 200);
    assert c.i == 1 && c.s.queue == [Entry(0, 57)];
  }

  // Once the poll is past a switch, nothing happens to it any more.
  lemma {:induction false} PollBehind(d: Debounce, s: State, k: nat, irq: Interrupts, sw: nat)
    requires k <= |d| && sw < k
    ensures var s' := PollFrom(d, s, k, irq);
      && (sw in s'.logical <==> sw in s.logical)
      && (sw in s.stable ==> sw in s'.stable)
      && s.queued <= s'.queued
      && |s.queue| <= |s'.queue|
    decreases |d| - k
  {
    if k < |d| {
      ScansKeepQueue(s, First(irq));
      var s0 := if k % 8 == 0 then Scans(s, First(irq)) else s;
      PollBehind(d, if k in s0.stable && k !in s0.queued then UpdateStable(d, s0, k) else s0, k + 1,
                 if k % 8 == 0 then Rest(irq) else irq, sw);
    }
  }

  // A debounce time read as a signed byte.
  function AsTimer(time: U8): int { if time < 0x80 then time else time - 0x100 }

  // A switch that the poll queues waits for exactly its own debounce time.
  lemma {:induction false} PollTimer(d: Debounce, s: State, k: nat, irq: Interrupts, sw: nat)
    requires Inv(s) && k <= sw < |d| && sw !in s.queued && sw in PollFrom(d, s, k, irq).queued
    ensures Entry(sw, AsTimer(d[sw])) in PollFrom(d, s, k, irq).queue
    decreases |d| - k
  {
    hide Inv, AsTimer, UpdateStable, Scans;
    ScansKeepQueue(s, First(irq));
    ScannedInv(s, First(irq));
    var s0 := if k % 8 == 0 then Scans(s, First(irq)) else s;
    var irq' := if k % 8 == 0 then Rest(irq) else irq;
    if k in s0.stable && k !in s0.queued {
      UpdateStableKeeps(d, s0, k);
      UpdateStableTimer(d, s0, k);
    }
    var s1 := if k in s0.stable && k !in s0.queued then UpdateStable(d, s0, k) else s0;
    if k == sw && sw in s1.queued {
      PollAppends(d, s1, k + 1, irq');
    } else if k == sw {
      PollPast(d, s1, k + 1, irq', sw);
    } else {
      PollTimer(d, s1, k + 1, irq', sw);
    }
  }

  lemma UpdateStableTimer(d: Debounce, s: State, k: nat)
    requires k < |d| && k !in s.queued
    ensures forall sw | sw != k :: sw in UpdateStable(d, s, k).queued <==> sw in s.queued
    ensures k in UpdateStable(d, s, k).queued ==> Entry(k, AsTimer(d[k])) in UpdateStable(d, s, k).queue
  {
    var s' := UpdateStable(d, s, k);
    if k in s'.queued { assert s'.queue[|s.queue|] == Entry(k, AsTimer(d[k])); }
  }

  // A switch is not toggled by the poll that queues it.
  lemma {:induction false} PollQueuesLevel(d: Debounce, s: State, k: nat, irq: Interrupts, sw: nat)
    requires Inv(s) && k <= sw < |d| && sw !in s.queued && sw in PollFrom(d, s, k, irq).queued
    ensures sw in PollFrom(d, s, k, irq).logical <==> sw in s.logical
    decreases |d| - k
  {
    hide Inv, UpdateStable, Scans;
    ScansKeepQueue(s, First(irq));
    ScannedInv(s, First(irq));
    var s0 := if k % 8 == 0 then Scans(s, First(irq)) else s;
    var irq' := if k % 8 == 0 then Rest(irq) else irq;
    if k in s0.stable && k !in s0.queued {
      UpdateStableKeeps(d, s0, k);
      UpdateStableTimer(d, s0, k);
      UpdateStableLevel(d, s0, k, sw);
    }
    var s1 := if k in s0.stable && k !in s0.queued then UpdateStable(d, s0, k) else s0;
    if k < sw {
      PollQueuesLevel(d, s1, k + 1, irq', sw);
    } else {
      PollBehind(d, s1, k + 1, irq', sw);
      if sw !in s1.queued { PollPast(d, s1, k + 1, irq', sw); }
    }
  }

  lemma UpdateStableLevel(d: Debounce, s: State, k: nat, sw: nat)
    requires k < |d| && k !in s.queued
    ensures sw != k || sw in UpdateStable(d, s, k).queued ==>
              (sw in UpdateStable(d, s, k).logical <==> sw in s.logical)
  {
  }

  lemma {:induction false} PollAppends(d: Debounce, s: State, k: nat, irq: Interrupts)
    requires k <= |d|
    ensures s.queue <= PollFrom(d, s, k, irq).queue
    decreases |d| - k
  {
    if k < |d| {
      ScansKeepQueue(s, First(irq));
      var s0 := if k % 8 == 0 then Scans(s, First(irq)) else s;
      PollAppends(d, if k in s0.stable && k !in s0.queued then UpdateStable(d, s0, k) else s0, k + 1,
                  if k % 8 == 0 then Rest(irq) else irq);
    }
  }

  // The poll does not come back to a switch.
  lemma {:induction false} PollPast(d: Debounce, s: State, k: nat, irq: Interrupts, sw: nat)
    requires sw < k <= |d| && sw !in s.queued
    ensures sw !in PollFrom(d, s, k, irq).queued
    decreases |d| - k
  {
    if k < |d| {
      ScansKeepQueue(s, First(irq));
      var s0 := if k % 8 == 0 then Scans(s, First(irq)) else s;
      PollPast(d, if k in s0.stable && k !in s0.queued then UpdateStable(d, s0, k) else s0, k + 1,
               if k % 8 == 0 then Rest(irq) else irq, sw);
    }
  }

  // A stable switch is never lost: it transitions if it needs no further
  // debouncing; otherwise it is queued, or stays stable because the queue is full.
  lemma {:induction false} PollFate(d: Debounce, s: State, k: nat, irq: Interrupts, sw: nat)
    requires Inv(s) && k <= sw < |d| && sw in s.stable && sw !in s.queued
    ensures var s' := PollFrom(d, s, k, irq);
      if d[sw] == 0 then sw in s'.logical <==> sw !in s.logical
      else
        && (sw in s'.logical <==> sw in s.logical)
        && sw in s'.stable
        && (sw in s'.queued || |s'.queue| == MAX_QUEUED_SWITCHES)
    decreases |d| - k
  {
    ScansKeepQueue(s, First(irq));
    var s0 := if k % 8 == 0 then Scans(s, First(irq)) else s;
    var irq' := if k % 8 == 0 then Rest(irq) else irq;
    var s1 := if k in s0.stable && k !in s0.queued then UpdateStable(d, s0, k) else s0;
    assert Inv(s0);
    if k in s0.stable && k !in s0.queued { UpdateStableKeeps(d, s0, k); }
    if k < sw {
      PollFate(d, s1, k + 1, irq', sw);
    } else {
      PollBehind(d, s1, k + 1, irq', sw);
      PollKeeps(d, s1, k + 1, irq');
    }
  }

  // ---------- whole runs ----------

  datatype Step = Reading(raw: set<nat>) | Periodic(elapsed: U8, serviceIrq: Interrupts, pollIrq: Interrupts)

  function Next(d: Debounce, s: State, e: Step): State {
    match e
    case Reading(raw) => Scan(s, raw)
    case Periodic(elapsed, serviceIrq, pollIrq) => PollFrom(d, ServiceFrom(s, 0, elapsed, serviceIrq), 0, pollIrq)
  }

  function Run(d: Debounce, s: State, steps: seq<Step>): State
    decreases |steps|
  {
    if steps == [] then s else Run(d, Next(d, s, steps[0]), steps[1..])
  }

  function Init(levels: set<nat>): State {
    State(levels, {}, {}, {}, {}, [])
  }

  // Whatever the readings and wherever interrupts fall, the queue holds
  // distinct switches, the bit index names exactly those, and each of them is
  // still marked stable.
  lemma {:induction false} RunKeepsInv(d: Debounce, s: State, steps: seq<Step>)
    requires Inv(s)
    ensures Inv(Run(d, s, steps))
    decreases |steps|
  {
    if steps != [] {
      match steps[0] {
        case Reading(raw) =>
        case Periodic(elapsed, serviceIrq, pollIrq) =>
          ServiceKeeps(s, 0, elapsed, serviceIrq);
          PollKeeps(d, ServiceFrom(s, 0, elapsed, serviceIrq), 0, pollIrq);
      }
      RunKeepsInv(d, Next(d, s, steps[0]), steps[1..]);
    }
  }

  lemma ReachableInv(d: Debounce, levels: set<nat>, steps: seq<Step>)
    ensures Inv(Run(d, Init(levels), steps))
  {
    RunKeepsInv(d, Init(levels), steps);
  }

  // ---------- the debounce law ----------

  // Every reading shows switch sw at the given level.
  ghost predicate Steady(raws: seq<set<nat>>, sw: nat, level: bool) {
    forall n | 0 <= n < |raws| :: sw in raws[n] <==> level
  }

  ghost predicate SteadyIrq(irq: Interrupts, sw: nat, level: bool) {
    forall n | 0 <= n < |irq| :: Steady(irq[n], sw, level)
  }

  // Every reading of the step does.
  ghost predicate SteadyStep(e: Step, sw: nat, level: bool) {
    match e
    case Reading(raw) => sw in raw <==> level
    case Periodic(elapsed, serviceIrq, pollIrq) =>
      SteadyIrq(serviceIrq, sw, level) && SteadyIrq(pollIrq, sw, level)
  }

  // The switch has not been seen to bounce, and once it shows the level it is
  // scanned afresh.
  ghost predicate Quiet(s: State, sw: nat, level: bool) {
    Inv(s) && sw !in s.unstable && ((sw in s.logical <==> level) ==> sw !in s.stable)
  }

  // The switch waits for `timer` more ticks at the new level.
  ghost predicate Debouncing(s: State, sw: nat, level: bool, timer: int) {
    Quiet(s, sw, level) && Entry(sw, timer) in s.queue && (sw in s.logical <==> !level)
  }

  ghost predicate Settled(s: State, sw: nat, level: bool) {
    Quiet(s, sw, level) && (sw in s.logical <==> level)
  }

  lemma {:induction false} ScansQuiet(s: State, raws: seq<set<nat>>, sw: nat, level: bool)
    requires Quiet(s, sw, level) && Steady(raws, sw, level)
    ensures Quiet(Scans(s, raws), sw, level)
    decreases |raws|
  {
    if raws != [] {
      ScannedInv(s, [raws[0]]);
      assert Scans(s, [raws[0]]) == Scans(Scan(s, raws[0]), []);
      ScansQuiet(Scan(s, raws[0]), raws[1..], sw, level);
    }
  }

  lemma TurnQuiet(s: State, i: nat, elapsed: U8, sw: nat, level: bool)
    requires Quiet(s, sw, level) && i < |s.queue|
    ensures Quiet(ServiceTurn(s, i, elapsed).s, sw, level)
    ensures (sw in s.logical <==> level) ==> (sw in ServiceTurn(s, i, elapsed).s.logical <==> level)
  {
    hide ServiceTurn, Due;
    TurnLevels(s, i, elapsed, sw);
    if s.queue[i].id == sw {
      assert sw in s.queued && sw in s.stable;
      OwnTurnUnstable(s, i, elapsed);
    }
  }

  lemma OwnTurnUnstable(s: State, i: nat, elapsed: U8)
    requires i < |s.queue| && s.queue[i].id !in s.unstable
    ensures s.queue[i].id !in ServiceTurn(s, i, elapsed).s.unstable
  {
  }

  lemma IrqSteady(irq: Interrupts, sw: nat, level: bool)
    requires SteadyIrq(irq, sw, level)
    ensures Steady(First(irq), sw, level) && SteadyIrq(Rest(irq), sw, level)
  {
  }

  lemma {:induction false} ServiceQuiet(s: State, i: nat, elapsed: U8, irq: Interrupts, sw: nat, level: bool)
    requires Quiet(s, sw, level) && i <= |s.queue| && SteadyIrq(irq, sw, level)
    ensures Quiet(ServiceFrom(s, i, elapsed, irq), sw, level)
    decreases |s.queue| - i
  {
    hide Quiet, Steady, SteadyIrq, Scans, ServiceTurn;
    if i < |s.queue| {
      IrqSteady(irq, sw, level);
      ScansKeepQueue(s, First(irq));
      ScansQuiet(s, First(irq), sw, level);
      var s0 := Scans(s, First(irq));
      TurnQuiet(s0, i, elapsed, sw, level);
      ServiceQuiet(ServiceTurn(s0, i, elapsed).s, ServiceTurn(s0, i, elapsed).i, elapsed, Rest(irq), sw, level);
    }
  }

  lemma {:induction false} SteadyReadings(irq: Interrupts, n: nat, sw: nat, level: bool)
    requires SteadyIrq(irq, sw, level)
    ensures Steady(Readings(irq, n), sw, level)
  {
    IrqSteady(irq, sw, level);
    if n > 0 { SteadyReadings(Rest(irq), n - 1, sw, level); }
  }

  lemma {:induction false} AgedHas(queue: seq<Entry>, elapsed: U8, e: Entry)
    requires e in queue && Age(e.timer, elapsed) > 0
    ensures Entry(e.id, Age(e.timer, elapsed)) in Aged(queue, elapsed)
  {
    if queue[0] != e { AgedHas(queue[1..], elapsed, e); }
  }

  // One service: the switch toggles if its time is up, and otherwise waits for
  // exactly as much less.
  lemma ServiceDebounces(s: State, elapsed: U8, irq: Interrupts, sw: nat, level: bool, timer: int)
    requires Debouncing(s, sw, level, timer) && 0 < timer < 0x80 && elapsed - timer <= 0x80 && SteadyIrq(irq, sw, level)
    ensures var s' := ServiceFrom(s, 0, elapsed, irq);
      if elapsed < timer then Debouncing(s', sw, level, timer - elapsed) else Settled(s', sw, level)
  {
    var s' := ServiceFrom(s, 0, elapsed, irq);
    ServiceQuiet(s, 0, elapsed, irq, sw, level);
    AgeIff(timer, elapsed);
    if elapsed < timer {
      StillWaits(s, elapsed, irq, sw, timer);
    } else {
      TimeIsUp(s, elapsed, irq, sw, level, timer);
    }
  }

  lemma StillWaits(s: State, elapsed: U8, irq: Interrupts, sw: nat, timer: int)
    requires Inv(s) && Entry(sw, timer) in s.queue && elapsed < timer < 0x80
    ensures var s' := ServiceFrom(s, 0, elapsed, irq);
      Entry(sw, timer - elapsed) in s'.queue && (sw in s'.logical <==> sw in s.logical)
  {
    hide ServiceFrom, Inv, Age, Aged, Due;
    AgeIff(timer, elapsed);
    ServiceQueue(s, 0, elapsed, irq);
    ServiceLevels(s, 0, elapsed, irq, sw);
    var s' := ServiceFrom(s, 0, elapsed, irq);
    assert s.queue[0..] == s.queue && multiset(s.queue[..0]) == multiset{};
    AgedHas(s.queue, elapsed, Entry(sw, timer));
    assert Entry(sw, timer - elapsed) in multiset(s'.queue);
    NotDue(s, elapsed, sw, timer);
  }

  lemma NotDue(s: State, elapsed: U8, sw: nat, timer: int)
    requires Inv(s) && Entry(sw, timer) in s.queue && Age(timer, elapsed) > 0
    ensures !Due(s.queue, 0, elapsed, sw)
  {
    hide Age;
    var k :| 0 <= k < |s.queue| && s.queue[k] == Entry(sw, timer);
  }

  lemma TimeIsUp(s: State, elapsed: U8, irq: Interrupts, sw: nat, level: bool, timer: int)
    requires Debouncing(s, sw, level, timer) && 0 < timer < 0x80 && timer <= elapsed <= timer + 0x80 && SteadyIrq(irq, sw, level)
    ensures sw in ServiceFrom(s, 0, elapsed, irq).logical <==> level
  {
    hide Age, TurnsBefore, ServiceFrom, Scans;
    AgeIff(timer, elapsed);
    var k :| 0 <= k < |s.queue| && s.queue[k] == Entry(sw, timer);
    assert Due(s.queue, 0, elapsed, sw);
    ServiceFate(s, 0, elapsed, irq, sw);
    var n := TurnsBefore(s.queue, 0, elapsed, sw) + 1;
    SteadyReadings(irq, n, sw, level);
    ScansQuiet(s, Readings(irq, n), sw, level);
  }

  // The poll leaves a queued or settled switch alone, and every entry.
  lemma {:induction false} PollQuiet(d: Debounce, s: State, k: nat, irq: Interrupts, sw: nat, level: bool)
    requires Quiet(s, sw, level) && k <= |d| && SteadyIrq(irq, sw, level)
    ensures var s' := PollFrom(d, s, k, irq);
      && Quiet(s', sw, level) && s.queue <= s'.queue
      && (sw in s.queued || (sw in s.logical <==> level) ==> (sw in s'.logical <==> sw in s.logical))
    decreases |d| - k
  {
    if k < |d| {
      IrqSteady(irq, sw, level);
      ScansKeepQueue(s, First(irq));
      ScansQuiet(s, First(irq), sw, level);
      var s0 := if k % 8 == 0 then Scans(s, First(irq)) else s;
      if k in s0.stable && k !in s0.queued { UpdateStableKeeps(d, s0, k); }
      PollQuiet(d, if k in s0.stable && k !in s0.queued then UpdateStable(d, s0, k) else s0, k + 1,
                if k % 8 == 0 then Rest(irq) else irq, sw, level);
    }
  }

  // One step of the debounce law.
  lemma StepDebounces(d: Debounce, s: State, e: Step, sw: nat, level: bool, timer: int)
    requires Debouncing(s, sw, level, timer) && 0 < timer < 0x80 && SteadyStep(e, sw, level) && ElapsedIn(e) - timer <= 0x80
    ensures if ElapsedIn(e) < timer then Debouncing(Next(d, s, e), sw, level, timer - ElapsedIn(e))
            else Settled(Next(d, s, e), sw, level)
  {
    hide Inv, Age, ServiceFrom, PollFrom, SteadyIrq;
    match e
    case Reading(raw) =>
      ScansQuiet(s, [raw], sw, level);
      assert Scans(s, [raw]) == Scans(Scan(s, raw), []);
    case Periodic(elapsed, serviceIrq, pollIrq) =>
      ServiceDebounces(s, elapsed, serviceIrq, sw, level, timer);
      var s1 := ServiceFrom(s, 0, elapsed, serviceIrq);
      PollQuiet(d, s1, 0, pollIrq, sw, level);
      if elapsed < timer { InQueue(s1, sw, timer - elapsed); }
  }

  lemma InQueue(s: State, sw: nat, timer: int)
    requires Inv(s) && Entry(sw, timer) in s.queue
    ensures sw in s.queued
  {
  }

  lemma StepSettled(d: Debounce, s: State, e: Step, sw: nat, level: bool)
    requires Settled(s, sw, level) && SteadyStep(e, sw, level)
    ensures Settled(Next(d, s, e), sw, level)
  {
    match e
    case Reading(raw) =>
      ScansQuiet(s, [raw], sw, level);
      assert Scans(s, [raw]) == Scans(Scan(s, raw), []);
    case Periodic(elapsed, serviceIrq, pollIrq) =>
      ServiceQuiet(s, 0, elapsed, serviceIrq, sw, level);
      NotQueued(s, 0, elapsed, sw);
      ServiceLevels(s, 0, elapsed, serviceIrq, sw);
      PollQuiet(d, ServiceFrom(s, 0, elapsed, serviceIrq), 0, pollIrq, sw, level);
  }

  lemma NotQueued(s: State, i: nat, elapsed: U8, sw: nat)
    requires Inv(s) && sw !in s.stable
    ensures !Due(s.queue, i, elapsed, sw)
  {
  }

  function ElapsedIn(e: Step): U8 { if e.Periodic? then e.elapsed else 0 }

  function Elapsed(steps: seq<Step>): nat {
    if steps == [] then 0 else ElapsedIn(steps[0]) + Elapsed(steps[1..])
  }

  // The queue is looked at before the signed byte wraps.
  predicate InTime(steps: seq<Step>, timer: int) {
    steps == [] || timer <= 0
    || (ElapsedIn(steps[0]) - timer <= 0x80 && InTime(steps[1..], timer - ElapsedIn(steps[0])))
  }

  // While it is read at the new level, a switch queued for `timer` ticks keeps its
  // old level until the ticks that passed at the services add up to that, has the
  // new one from that very service on, and is never toggled again.
  lemma {:induction false} DebounceLaw(d: Debounce, s: State, steps: seq<Step>, sw: nat, level: bool, timer: int)
    requires Debouncing(s, sw, level, timer) && 0 < timer < 0x80 && InTime(steps, timer)
    requires forall n | 0 <= n < |steps| :: SteadyStep(steps[n], sw, level)
    ensures if Elapsed(steps) < timer then Debouncing(Run(d, s, steps), sw, level, timer - Elapsed(steps))
            else Settled(Run(d, s, steps), sw, level)
    decreases |steps|
  {
    hide Debouncing, Settled, SteadyStep, Next;
    if steps != [] {
      StepDebounces(d, s, steps[0], sw, level, timer);
      var s1 := Next(d, s, steps[0]);
      if ElapsedIn(steps[0]) < timer {
        DebounceLaw(d, s1, steps[1..], sw, level, timer - ElapsedIn(steps[0]));
      } else {
        StaysSettled(d, s1, steps[1..], sw, level);
      }
    }
  }

  lemma {:induction false} StaysSettled(d: Debounce, s: State, steps: seq<Step>, sw: nat, level: bool)
    requires Settled(s, sw, level) && forall n | 0 <= n < |steps| :: SteadyStep(steps[n], sw, level)
    ensures Settled(Run(d, s, steps), sw, level)
    decreases |steps|
  {
    hide Settled, SteadyStep, Next;
    if steps != [] {
      StepSettled(d, s, steps[0], sw, level);
      StaysSettled(d, Next(d, s, steps[0]), steps[1..], sw, level);
    }
  }

  lemma {:induction false} ServiceQueuesNone(s: State, i: nat, elapsed: U8, irq: Interrupts)
    requires i <= |s.queue|
    ensures ServiceFrom(s, i, elapsed, irq).queued <= s.queued
    decreases |s.queue| - i
  {
    if i < |s.queue| {
      ScansKeepQueue(s, First(irq));
      var c := ServiceTurn(Scans(s, First(irq)), i, elapsed);
      ServiceQueuesNone(c.s, c.i, elapsed, Rest(irq));
    }
  }

  lemma NewlyQueued(d: Debounce, s: State, e: Step, sw: nat, level: bool)
    requires Quiet(s, sw, level) && sw !in s.queued && (sw in s.logical <==> !level)
    requires e.Periodic? && SteadyStep(e, sw, level)
    requires sw < |d| && d[sw] < 0x80 && sw in Next(d, s, e).queued
    ensures Debouncing(Next(d, s, e), sw, level, d[sw])
  {
    hide ServiceFrom, PollFrom, Scans;
    var s1 := ServiceFrom(s, 0, e.elapsed, e.serviceIrq);
    ServiceQuiet(s, 0, e.elapsed, e.serviceIrq, sw, level);
    ServiceQueuesNone(s, 0, e.elapsed, e.serviceIrq);
    ServiceLevels(s, 0, e.elapsed, e.serviceIrq, sw);
    PollTimer(d, s1, 0, e.pollIrq, sw);
    PollQuiet(d, s1, 0, e.pollIrq, sw, level);
    PollQueuesLevel(d, s1, 0, e.pollIrq, sw);
  }

  // The whole debouncing of a switch: from the poll that queues it on, it changes
  // exactly at the first service at which the ticks that passed add up to its
  // debounce time, if it is read at the new level all the while.
  lemma Debounced(d: Debounce, s: State, e: Step, steps: seq<Step>, sw: nat, level: bool)
    requires Quiet(s, sw, level) && sw !in s.queued && (sw in s.logical <==> !level)
    requires e.Periodic? && SteadyStep(e, sw, level) && forall n | 0 <= n < |steps| :: SteadyStep(steps[n], sw, level)
    requires sw < |d| && 0 < d[sw] < 0x80 && sw in Next(d, s, e).queued && InTime(steps, d[sw])
    ensures var s' := Run(d, s, [e] + steps);
      sw in s'.logical <==> if Elapsed(steps) < d[sw] then !level else level
  {
    NewlyQueued(d, s, e, sw, level);
    DebounceLaw(d, Next(d, s, e), steps, sw, level, d[sw]);
    assert ([e] + steps)[1..] == steps;
  }

  // Such a queue comes about when a switch with a debounce time of one closes
  // for two scans.
  lemma QueuedForOne()
    ensures Run([1], Init({}), [Reading({0}), Reading({0}), Periodic(0, [], [])]).queue == [Entry(0, 1)]
  {
    var d: Debounce := [1];
    var s1 := Scan(Init({}), {0});
    var s2 := Scan(s1, {0});
    assert s1.edge == {0} && s1.stable == {} && s1.unstable == {} && s2.stable == {0} && s2.queued == {};
    var steps := [Reading({0}), Reading({0}), Periodic(0, [], [])];
    assert steps[1..] == [Reading({0}), Periodic(0, [], [])] && steps[1..][1..] == [Periodic(0, [], [])];
    var s3 := UpdateStable(d, s2, 0);
    assert s3.queue == [Entry(0, 1)];
    assert PollFrom(d, s2, 0, []) == PollFrom(d, s3, 1, []) == s3;
    assert Next(d, s2, Periodic(0, [], [])) == s3;
    assert Run(d, s2, [Periodic(0, [], [])]) == s3;
  }
}
