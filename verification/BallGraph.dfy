/**
 The ball graph as it runs: each node keeps its balls in a ring buffer with a
 head offset and a count.  Each method performs exactly the step of the same
 name in module Balls.
 */
module BallGraphs {
  import opened Machine
  import B = Balls

  // The slot i places after the head.
  function Offset(head: nat, i: nat, size: nat): (r: nat)
    requires size > 0
    ensures r < size
  {
    (head + i) % size
  }

  lemma OffsetsDiffer(head: nat, i: nat, j: nat, size: nat)
    requires i < j < size
    ensures Offset(head, i, size) != Offset(head, j, size)
  {
    if Offset(head, i, size) == Offset(head, j, size) {
      NoSmallMultiple(size, (head + j) / size - (head + i) / size, j - i);
    }
  }

  lemma NoSmallMultiple(size: nat, k: int, x: int)
    requires 0 < x < size
    ensures size * k != x
  {
    if k >= 1 { assert size * k >= size; } else { assert size * k <= 0; }
  }

  // The slot i places after the head holds a ball.
  predicate Filled(buf: seq<Option<nat>>, head: nat, i: nat, size: nat)
    requires 0 < size <= |buf|
  {
    buf[Offset(head, i, size)].Some?
  }

  function BallAt(buf: seq<Option<nat>>, head: nat, i: nat, size: nat): nat
    requires 0 < size <= |buf| && Filled(buf, head, i, size)
  {
    buf[Offset(head, i, size)].value
  }

  // The balls of a ring, head first.
  function Ring(buf: seq<Option<nat>>, head: nat, count: nat, size: nat): (q: seq<nat>)
    requires count <= size <= |buf|
    requires forall i: nat | i < count :: Filled(buf, head, i, size)
    ensures |q| == count
  {
    seq(count, i requires 0 <= i < count && Filled(buf, head, i, size) => BallAt(buf, head, i, size))
  }

  lemma RingPush(buf: seq<Option<nat>>, head: nat, count: nat, size: nat, b: nat)
    requires count < size <= |buf|
    requires forall i: nat | i < count :: Filled(buf, head, i, size)
    ensures var buf' := buf[Offset(head, count, size) := Some(b)];
      && (forall i: nat | i <= count :: Filled(buf', head, i, size))
      && Ring(buf', head, count + 1, size) == Ring(buf, head, count, size) + [b]
  {
    var buf' := buf[Offset(head, count, size) := Some(b)];
    forall i: nat | i < count ensures Filled(buf', head, i, size) && BallAt(buf', head, i, size) == BallAt(buf, head, i, size) {
      assert Filled(buf, head, i, size);
      OffsetsDiffer(head, i, count, size);
    }
    assert Filled(buf', head, count, size);
  }

  lemma RingPop(buf: seq<Option<nat>>, head: nat, count: nat, size: nat)
    requires 0 < count <= size <= |buf|
    requires forall i: nat | i < count :: Filled(buf, head, i, size)
    ensures var h := head + 1;
      && (forall i: nat | i < count - 1 :: Filled(buf, h, i, size))
      && Filled(buf, head, 0, size)
      && Ring(buf, head, count, size) == [buf[Offset(head, 0, size)].value] + Ring(buf, h, count - 1, size)
  {
    var h := head + 1;
    forall i: nat | i < count - 1 ensures Filled(buf, h, i, size) && Offset(h, i, size) == Offset(head, i + 1, size) {
      assert Filled(buf, head, i + 1, size);
    }
    assert Filled(buf, head, 0, size);
  }

  class BallGraph {
    const g: B.Graph
    const head: array<nat>
    const count: array<nat>
    const bufs: array<seq<Option<nat>>>
    const at: array<Option<nat>>
    const timers: array<int>
    var pending: multiset<B.Event>

    ghost predicate NodeValid(n: nat)
      requires head.Length == count.Length == bufs.Length == |g| && n < |g|
      reads head, count, bufs
    {
      && |bufs[n]| == B.MAX_BALLS_PER_NODE
      && count[n] <= g[n].size
      && forall i: nat | i < count[n] :: Filled(bufs[n], head[n], i, g[n].size)
    }

    ghost predicate Valid()
      reads this, head, count, bufs
    {
      && head.Length == count.Length == bufs.Length == |g| && head != count
      && at.Length == timers.Length
      && forall n: nat | n < |g| :: NodeValid(n)
    }

    ghost function Queue(n: nat): seq<nat>
      requires Valid() && n < |g|
      reads this, head, count, bufs
    {
      assert NodeValid(n);
      Ring(bufs[n], head[n], count[n], g[n].size)
    }

    ghost function Abs(): (s: B.State)
      requires Valid()
      reads this, head, count, bufs, at, timers
      ensures |s.queues| == |g| && |s.at| == at.Length
    {
      B.State(seq(|g|, n requires 0 <= n < |g| reads this, head, count, bufs requires Valid() => Queue(n)),
              at[..], timers[..], pending)
    }

    constructor (g: B.Graph, balls: nat)
      ensures Valid() && Abs() == B.Init(g, balls) && this.g == g
      ensures fresh(head) && fresh(count) && fresh(bufs) && fresh(at) && fresh(timers)
    {
      this.g := g;
      head := new nat[|g|](_ => 0);
      count := new nat[|g|](_ => 0);
      bufs := new seq<Option<nat>>[|g|](_ => seq(B.MAX_BALLS_PER_NODE, _ => None));
      at := new Option<nat>[balls](_ => None);
      timers := new int[balls](_ => 0);
      pending := multiset{};
      new;
      assert forall n: nat | n < |g| :: NodeValid(n);
      assert at[..] == seq(balls, _ => None);
      assert timers[..] == seq(balls, _ => 0);
      assert forall n: nat | n < |g| :: Queue(n) == [];
    }

    method Push(n: nat, b: nat)
      requires Valid() && n < |g| && b < at.Length && count[n] < g[n].size
      modifies count, bufs, at
      ensures Valid() && Abs() == B.Append(old(Abs()), n, b)
    {
      assert NodeValid(n);
      ghost var s := Abs();
      var offset := (head[n] + count[n]) % g[n].size;
      RingPush(bufs[n], head[n], count[n], g[n].size, b);
      bufs[n] := bufs[n][offset := Some(b)];
      count[n] := count[n] + 1;
      at[b] := Some(n);
      assert forall m: nat | m < |g| && m != n :: old(NodeValid(m)) ==> NodeValid(m);
      assert NodeValid(n);
      assert forall m: nat | m < |g| && m != n :: Queue(m) == old(Queue(m));
      assert Abs().queues == s.queues[n := s.queues[n] + [b]];
    }

    method Insert(n: nat, b: nat)
      requires Valid() && n < |g| && b < at.Length
      modifies this`pending, count, bufs, at
      ensures Valid() && Abs() == B.Insert(g, old(Abs()), n, b)
    {
      assert NodeValid(n);
      if at[b].Some? || count[n] == g[n].size || !g[n].typed { return; }
      Push(n, b);
      if g[n].unlocked {
        assert NodeValid(g[n].next.value);
        if count[g[n].next.value] != g[g[n].next.value].size {
          pending := pending + multiset{B.KickLater(n)};
        }
      }
    }

    method Pop(n: nat) returns (b: nat)
      requires Valid() && n < |g| && count[n] > 0 && Queue(n)[0] < at.Length
      modifies head, count, at
      ensures Valid() && b == old(Queue(n)[0]) && Abs() == B.Pop(old(Abs()), n)
    {
      assert NodeValid(n);
      ghost var s := Abs();
      var offset := head[n] % g[n].size;
      RingPop(bufs[n], head[n], count[n], g[n].size);
      b := bufs[n][offset].value;
      head[n] := head[n] + 1;
      count[n] := count[n] - 1;
      at[b] := None;
      assert forall m: nat | m < |g| && m != n :: old(NodeValid(m)) ==> NodeValid(m);
      assert NodeValid(n);
      assert forall m: nat | m < |g| && m != n :: Queue(m) == old(Queue(m));
      assert Abs().queues == s.queues[n := s.queues[n][1..]];
    }

    method Remove(n: nat) returns (ball: Option<nat>)
      requires Valid() && B.Inv(g, Abs()) && n < |g|
      modifies this`pending, head, count, bufs, at, timers
      ensures Valid() && (Abs(), ball) == B.Remove(g, old(Abs()), n)
      decreases B.Total(Abs().queues), 0
    {
      assert NodeValid(n) && B.NodeOk(g, Abs(), n);
      if count[n] == 0 { return None; }
      B.PopKeeps(g, Abs(), n);
      var b := Pop(n);
      ball := Some(b);
      var p := g[n].prev;
      if p.Some? && g[p.value].unlocked {
        assert NodeValid(p.value);
        if count[p.value] != 0 { Kick(p.value); }
      }
    }

    method InsertDelay(dst: nat, b: nat, delay: nat)
      requires Valid() && b < at.Length
      modifies this`pending, at, timers
      ensures Valid() && Abs() == B.InsertDelay(old(Abs()), dst, b, delay)
    {
      at[b] := Some(dst);
      timers[b] := delay;
      pending := pending + multiset{B.Arrive(b)};
    }

    method Move(dst: Option<nat>, src: Option<nat>)
      requires Valid() && B.Inv(g, Abs())
      requires dst.Some? ==> dst.value < |g|
      requires src.Some? ==> src.value < |g|
      modifies this`pending, head, count, bufs, at, timers
      ensures Valid() && Abs() == B.Move(g, old(Abs()), dst, src)
      decreases B.Total(Abs().queues), 1
    {
      if dst.None? || src.None? { return; }
      assert NodeValid(dst.value);
      if count[dst.value] == g[dst.value].size { return; }
      var ball := Remove(src.value);
      if ball.None? { return; }
      if g[src.value].delay == 0 {
        Insert(dst.value, ball.value);
      } else {
        InsertDelay(dst.value, ball.value, g[src.value].delay);
      }
    }

    method Kick(n: nat)
      requires Valid() && B.Inv(g, Abs()) && n < |g|
      modifies this`pending, head, count, bufs, at, timers
      ensures Valid() && Abs() == B.Kick(g, old(Abs()), n)
      decreases B.Total(Abs().queues), 2
    {
      Move(g[n].next, Some(n));
    }

    method Update(b: nat)
      requires Valid() && B.Inv(g, Abs()) && B.Arrive(b) in pending
      modifies this`pending, count, bufs, at, timers
      ensures Valid() && b < at.Length && old(at[b]).Some? && old(at[b]).value < |g|
      ensures Abs() == B.Update(g, old(Abs()), b)
    {
      assert B.BallOk(g, Abs(), b);
      ghost var s := Abs();
      pending := pending - multiset{B.Arrive(b)};
      timers[b] := timers[b] - B.MIN_DELAY;
      ghost var s1 := s.(pending := pending, timers := s.timers[b := timers[b]]);
      assert Abs() == s1;
      if timers[b] <= 0 {
        var dst := at[b].value;
        at[b] := None;
        assert Abs() == s1.(at := s1.at[b := None]);
        Insert(dst, b);
      } else {
        pending := pending + multiset{B.Arrive(b)};
      }
    }
  }
}
