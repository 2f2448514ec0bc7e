/**
 The ball graph of the simulator as steps on values: every node holds a
 first-in first-out queue of balls, and moving a ball out of a node may pull
 others after it.  BallGraph.dfy keeps the queues in ring buffers.
 */
module Balls {
  import opened Machine

  const MAX_BALLS_PER_NODE := 8
  const MIN_DELAY := 100

  // `typed` is whether the node has a type object; balls only enter typed nodes.
  datatype Node = Node(next: Option<nat>, prev: Option<nat>, size: nat, typed: bool, delay: nat, unlocked: bool)

  // Links name nodes of the graph, and an unlocked node has a next node.
  type Graph = g: seq<Node> | forall n | 0 <= n < |g| ::
    && g[n].size <= MAX_BALLS_PER_NODE
    && (g[n].next.Some? ==> g[n].next.value < |g|)
    && (g[n].prev.Some? ==> g[n].prev.value < |g|)
    && (g[n].unlocked ==> g[n].next.Some?)

  // Timer callbacks that are waiting to run.
  datatype Event = KickLater(node: nat) | Arrive(ball: nat)

  /**
   queues: the balls in each node, next to leave first; at: the node each ball
   says it belongs to, which for a ball in transit is its destination; timers:
   the time a ball in transit still needs; pending: registered callbacks.
   */
  datatype State = State(queues: seq<seq<nat>>, at: seq<Option<nat>>, timers: seq<int>, pending: multiset<Event>)

  ghost predicate Shaped(g: Graph, s: State) {
    |s.queues| == |g| && |s.timers| == |s.at|
  }

  // Node n holds no more balls than it can, each once, and each names it.
  ghost predicate NodeOk(g: Graph, s: State, n: nat)
    requires Shaped(g, s) && n < |g|
  {
    var q := s.queues[n];
    && |q| <= g[n].size
    && (forall i | 0 <= i < |q| :: q[i] < |s.at| && s.at[q[i]] == Some(n))
    && (forall i, j | 0 <= i < j < |q| :: q[i] != q[j])
  }

  // Ball b either belongs nowhere, or is in the node it names, or is on its
  // way there with one arrival pending, and never both.
  ghost predicate BallOk(g: Graph, s: State, b: nat)
    requires Shaped(g, s)
  {
    if b < |s.at| && s.at[b].Some? then
      && s.at[b].value < |g|
      && s.pending[Arrive(b)] == (if b in s.queues[s.at[b].value] then 0 else 1)
    else s.pending[Arrive(b)] == 0
  }

  // No ball is in two places, a queued ball names its node, no node overflows,
  // and a ball in transit is in no queue.
  ghost predicate Inv(g: Graph, s: State) {
    && Shaped(g, s)
    && (forall n: nat | n < |g| :: NodeOk(g, s, n))
    && (forall b: nat :: BallOk(g, s, b))
    && (forall n: nat | KickLater(n) in s.pending :: n < |g|)
  }

  predicate Full(g: Graph, s: State, n: nat)
    requires n < |g| && n < |s.queues|
  {
    |s.queues[n]| == g[n].size
  }

  // All queued balls.
  function Total(queues: seq<seq<nat>>): nat {
    if queues == [] then 0 else |queues[0]| + Total(queues[1..])
  }

  lemma {:induction false} TotalUpdate(queues: seq<seq<nat>>, n: nat, q: seq<nat>)
    requires n < |queues|
    ensures Total(queues[n := q]) == Total(queues) - |queues[n]| + |q|
  {
    if n > 0 {
      assert queues[n := q][1..] == queues[1..][n - 1 := q];
      TotalUpdate(queues[1..], n - 1, q);
    }
  }

  function Append(s: State, n: nat, b: nat): State
    requires n < |s.queues| && b < |s.at|
  {
    s.(queues := s.queues[n := s.queues[n] + [b]], at := s.at[b := Some(n)])
  }

  function Insert(g: Graph, s: State, n: nat, b: nat): (s': State)
    requires |s.queues| == |g| && n < |g| && b < |s.at|
    ensures |s'.queues| == |g| && |s'.at| == |s.at|
  {
    if s.at[b].Some? || Full(g, s, n) || !g[n].typed then s
    else
      var s1 := Append(s, n, b);
      if g[n].unlocked && !Full(g, s1, g[n].next.value) then s1.(pending := s1.pending + multiset{KickLater(n)}) else s1
  }

  // The ball leaves for `dst` and arrives when its timer runs out.
  function InsertDelay(s: State, dst: nat, b: nat, delay: nat): (s': State)
    requires b < |s.at| && b < |s.timers|
    ensures s'.queues == s.queues && |s'.at| == |s.at|
  {
    s.(at := s.at[b := Some(dst)], timers := s.timers[b := delay], pending := s.pending + multiset{Arrive(b)})
  }

  // Taking the head ball of a nonempty node.
  function Pop(s: State, n: nat): (s': State)
    requires n < |s.queues| && s.queues[n] != [] && s.queues[n][0] < |s.at|
    ensures |s'.queues| == |s.queues| && |s'.at| == |s.at|
    ensures Total(s'.queues) == Total(s.queues) - 1
  {
    TotalUpdate(s.queues, n, s.queues[n][1..]);
    s.(queues := s.queues[n := s.queues[n][1..]], at := s.at[s.queues[n][0] := None])
  }

  // The mutual recursion of node_remove, node_kick and node_move ends because
  // each removal leaves one queued ball less before it pulls the next.
  ghost function Remove(g: Graph, s: State, n: nat): (r: (State, Option<nat>))
    requires Inv(g, s) && n < |g|
    ensures Inv(g, r.0) && Settles(s, r.0)
    ensures r.1.Some? <==> s.queues[n] != []
    ensures r.1.Some? ==> r.1.value == s.queues[n][0] < |s.at|
    ensures r.1.Some? ==> s.at[r.1.value] == Some(n) && r.0.at[r.1.value] == None
    decreases Total(s.queues), 0
  {
    if s.queues[n] == [] then (s, None)
    else
      PopKeeps(g, s, n);
      assert NodeOk(g, s, n);
      var b := s.queues[n][0];
      var s1 := Pop(s, n);
      var p := g[n].prev;
      (if p.Some? && g[p.value].unlocked && s1.queues[p.value] != [] then Kick(g, s1, p.value) else s1, Some(b))
  }

  ghost function Move(g: Graph, s: State, dst: Option<nat>, src: Option<nat>): (s': State)
    requires Inv(g, s)
    requires dst.Some? ==> dst.value < |g|
    requires src.Some? ==> src.value < |g|
    ensures Inv(g, s') && Settles(s, s')
    decreases Total(s.queues), 1
  {
    if dst.None? || src.None? then s
    else if Full(g, s, dst.value) then s
    else
      var r := Remove(g, s, src.value);
      if r.1.None? then r.0
      else
        var b := r.1.value;
        InsertKeeps(g, r.0, dst.value, b);
        InsertDelayKeeps(g, r.0, dst.value, b, g[src.value].delay);
        if g[src.value].delay == 0 then Insert(g, r.0, dst.value, b)
        else InsertDelay(r.0, dst.value, b, g[src.value].delay)
  }

  ghost function Kick(g: Graph, s: State, n: nat): (s': State)
    requires Inv(g, s) && n < |g|
    ensures Inv(g, s') && Settles(s, s')
    decreases Total(s.queues), 2
  {
    Move(g, s, g[n].next, Some(n))
  }

  // Balls that belonged nowhere still do: no operation picks up a free ball.
  ghost predicate Settles(s: State, s': State) {
    && |s'.at| == |s.at|
    && forall b | 0 <= b < |s.at| && s.at[b] == None :: s'.at[b] == None
  }

  lemma PopKeeps(g: Graph, s: State, n: nat)
    requires Inv(g, s) && n < |g| && s.queues[n] != []
    ensures s.queues[n][0] < |s.at| && Inv(g, Pop(s, n)) && Settles(s, Pop(s, n))
  {
    assert NodeOk(g, s, n);
    assert s.queues[n][0] < |s.at|;
    var s', q := Pop(s, n), s.queues[n];
    forall m: nat | m < |g| ensures NodeOk(g, s', m) {
      assert NodeOk(g, s, m);
      if m != n { assert s'.queues[m] == s.queues[m]; }
    }
    forall x: nat ensures BallOk(g, s', x) {
      assert BallOk(g, s, x);
      if x != q[0] && x < |s.at| && s.at[x] == Some(n) {
        assert x in q <==> x in q[1..];
      } else if x == q[0] {
        assert x in s.queues[n];
      }
    }
  }

  lemma AppendKeeps(g: Graph, s: State, n: nat, b: nat)
    requires Inv(g, s) && n < |g| && b < |s.at| && s.at[b] == None && !Full(g, s, n)
    ensures Inv(g, Append(s, n, b))
  {
    var s' := Append(s, n, b);
    forall m: nat | m < |g| ensures NodeOk(g, s', m) {
      assert NodeOk(g, s, m);
      if m != n { assert s'.queues[m] == s.queues[m]; }
    }
    forall x: nat ensures BallOk(g, s', x) {
      assert BallOk(g, s, x);
      if x == b {
        assert s'.queues[n][|s.queues[n]|] == b;
      } else if x < |s.at| && s.at[x] == Some(n) {
        assert x in s.queues[n] <==> x in s'.queues[n];
      }
    }
  }

  lemma InsertKeeps(g: Graph, s: State, n: nat, b: nat)
    requires Inv(g, s) && n < |g| && b < |s.at|
    ensures Inv(g, Insert(g, s, n, b))
  {
    if s.at[b] == None && !Full(g, s, n) {
      AppendKeeps(g, s, n, b);
      KickLaterKeeps(g, Append(s, n, b), n);
    }
  }

  lemma KickLaterKeeps(g: Graph, s: State, n: nat)
    requires Inv(g, s) && n < |g|
    ensures Inv(g, s.(pending := s.pending + multiset{KickLater(n)}))
  {
    var s' := s.(pending := s.pending + multiset{KickLater(n)});
    forall m: nat | m < |g| ensures NodeOk(g, s', m) {
      assert NodeOk(g, s, m);
    }
    forall x: nat ensures BallOk(g, s', x) {
      assert BallOk(g, s, x);
    }
  }

  lemma InsertDelayKeeps(g: Graph, s: State, dst: nat, b: nat, delay: nat)
    requires Inv(g, s) && dst < |g| && b < |s.at| && s.at[b] == None
    ensures Inv(g, InsertDelay(s, dst, b, delay))
  {
    var s' := InsertDelay(s, dst, b, delay);
    forall m: nat | m < |g| ensures NodeOk(g, s', m) {
      assert NodeOk(g, s, m);
    }
    forall x: nat ensures BallOk(g, s', x) {
      assert BallOk(g, s, x) && NodeOk(g, s, dst);
    }
  }

  // Sending a ball off with a delay is safe exactly when it belongs nowhere.
  lemma InsertDelayInvIff(g: Graph, s: State, dst: nat, b: nat, delay: nat)
    requires Inv(g, s) && dst < |g| && b < |s.at|
    ensures Inv(g, InsertDelay(s, dst, b, delay)) <==> s.at[b] == None
  {
    if s.at[b] == None {
      InsertDelayKeeps(g, s, dst, b, delay);
    } else {
      var s' := InsertDelay(s, dst, b, delay);
      var n := s.at[b].value;
      assert BallOk(g, s, b);
      if b in s.queues[n] {
        var i :| 0 <= i < |s.queues[n]| && s.queues[n][i] == b;
        assert dst != n ==> !NodeOk(g, s', n);
        assert dst == n ==> !BallOk(g, s', b);
      } else {
        assert !BallOk(g, s', b);
      }
    }
  }

  // Where a moved ball ends up: at the back of its destination, or on its way
  // there, unless it could not enter because the balls pulled along filled the node first, or because
  // the node has no type.  In that case it belongs nowhere.
  lemma MoveDelivers(g: Graph, s: State, dst: nat, src: nat)
    requires Inv(g, s) && dst < |g| && src < |g| && !Full(g, s, dst) && s.queues[src] != []
    ensures var b, s', r := s.queues[src][0], Move(g, s, Some(dst), Some(src)), Remove(g, s, src).0;
      && b < |s'.at|
      && (if g[src].delay > 0 then
            s'.at[b] == Some(dst) && s'.queues == r.queues && s'.timers[b] == g[src].delay && Arrive(b) in s'.pending
          else if g[dst].typed && !Full(g, r, dst) then
            s'.at[b] == Some(dst) && s'.queues == r.queues[dst := r.queues[dst] + [b]]
          else s'.at[b] == None && s'.queues == r.queues)
  {
  }

  // An insertion is refused, or puts the ball at the back and, in an unlocked node
  // whose next node has room then, schedules its kick.
  lemma InsertExact(g: Graph, s: State, n: nat, b: nat)
    requires |s.queues| == |g| && n < |g| && b < |s.at|
    ensures var s' := Insert(g, s, n, b);
      if s.at[b] == None && |s.queues[n]| != g[n].size && g[n].typed then
        && s'.queues == s.queues[n := s.queues[n] + [b]]
        && s'.at == s.at[b := Some(n)] && s'.timers == s.timers
        && s'.pending == s.pending +
          if g[n].unlocked && |s'.queues[g[n].next.value]| != g[g[n].next.value].size then multiset{KickLater(n)} else multiset{}
      else s' == s
  {
  }

  // ---------- what a removal pulls along ----------

  // No ball follows: there is no node before n, or it is locked or empty, or the
  // node it sends balls to has no room.
  predicate NoneFollows(g: Graph, s: State, n: nat)
    requires |s.queues| == |g| && n < |g|
  {
    var p := g[n].prev;
    p.None? || !g[p.value].unlocked || s.queues[p.value] == [] || Full(g, s, g[p.value].next.value)
  }

  // From r to s' ball b, which was free, goes to node dst after a delay.
  predicate Delivered(g: Graph, r: State, s': State, b: nat, dst: nat, delay: nat)
    requires dst < |g|
  {
    && b < |r.at| && b < |r.timers| && |r.queues| == |g| && r.at[b] == None
    && if delay > 0 then
         s' == State(r.queues, r.at[b := Some(dst)], r.timers[b := delay], r.pending + multiset{Arrive(b)})
       else if g[dst].typed && !Full(g, r, dst) then
         s'.queues == r.queues[dst := r.queues[dst] + [b]] && s'.at == r.at[b := Some(dst)] && s'.timers == r.timers
       else s' == r
  }

  lemma RemoveIs(g: Graph, s: State, n: nat)
    requires Inv(g, s) && n < |g| && s.queues[n] != []
    ensures s.queues[n][0] < |s.at| && Inv(g, Pop(s, n))
    ensures Remove(g, s, n).0 ==
      if g[n].prev.Some? && g[g[n].prev.value].unlocked && Pop(s, n).queues[g[n].prev.value] != [] then
        Kick(g, Pop(s, n), g[n].prev.value)
      else Pop(s, n)
  {
    PopKeeps(g, s, n);
    hide Inv, Settles, Pop, Kick;
  }

  lemma KickIs(g: Graph, s: State, p: nat)
    requires Inv(g, s) && p < |g| && g[p].next.Some? && s.queues[p] != []
    ensures var dst := g[p].next.value;
      if Full(g, s, dst) then Kick(g, s, p) == s
      else Delivered(g, Remove(g, s, p).0, Kick(g, s, p), s.queues[p][0], dst, g[p].delay)
  {
    assert Shaped(g, Remove(g, s, p).0);
    assert Kick(g, s, p) == Move(g, s, g[p].next, Some(p));
  }

  // If no ball follows, a removal changes nothing but the ball and its queue.
  lemma RemoveAlone(g: Graph, s: State, n: nat)
    requires Inv(g, s) && n < |g| && s.queues[n] != []
    ensures s.queues[n][0] < |s.at|
    ensures NoneFollows(g, Pop(s, n), n) ==>
      Remove(g, s, n).0 == State(s.queues[n := s.queues[n][1..]], s.at[s.queues[n][0] := None], s.timers, s.pending)
  {
    hide NodeOk, BallOk, Kick, Remove;
    RemoveIs(g, s, n);
    var p, s1 := g[n].prev, Pop(s, n);
    if p.Some? && g[p.value].unlocked && s1.queues[p.value] != [] { KickIs(g, s1, p.value); }
  }

  // Otherwise the front ball of the node before leaves, with all that follows it
  // in turn, and goes to the back of that node's next node, or is on its way there,
  // or belongs nowhere because the node cannot take it.
  lemma RemovePulls(g: Graph, s: State, n: nat)
    requires Inv(g, s) && n < |g| && s.queues[n] != []
    ensures s.queues[n][0] < |s.at| && Inv(g, Pop(s, n))
    ensures !NoneFollows(g, Pop(s, n), n) ==>
      var s1, p := Pop(s, n), g[n].prev.value;
      var b, dst, r, s' := s1.queues[p][0], g[p].next.value, Remove(g, s1, p).0, Remove(g, s, n).0;
      Delivered(g, r, s', b, dst, g[p].delay)
  {
    hide NodeOk, BallOk, Kick, Remove;
    RemoveIs(g, s, n);
    var s1 := Pop(s, n);
    if !NoneFollows(g, s1, n) { KickIs(g, s1, g[n].prev.value); }
  }

  // Node b is behind node a: unlocked, and each is the other's neighbour.
  predicate Behind(g: Graph, b: nat, a: nat)
    requires a < |g| && b < |g|
  {
    g[a].prev == Some(b) && g[b].next == Some(a) && g[b].unlocked && g[a].typed
  }

  // Nodes in a row, each behind the one before.
  ghost predicate Lane(g: Graph, lane: seq<nat>) {
    && lane != []
    && (forall i | 0 <= i < |lane| :: lane[i] < |g|)
    && (forall i, j | 0 <= i < j < |lane| :: lane[i] != lane[j])
    && (forall i, j | 0 <= i < j < |lane| && j == i + 1 :: Behind(g, lane[j], lane[i]))
  }

  // Nothing comes after the lane: a locked or empty node, one whose next node is
  // full, or none at all.
  ghost predicate LaneEnds(g: Graph, s: State, lane: seq<nat>)
    requires Lane(g, lane) && |s.queues| == |g|
  {
    var p := g[lane[|lane| - 1]].prev;
    || p.None? || !g[p.value].unlocked
    || (p.value !in lane && s.queues[p.value] == [])
    || (p.value !in lane && g[p.value].next.value !in lane && Full(g, s, g[p.value].next.value))
  }

  // Every node of the lane has a ball.
  ghost predicate Occupied(g: Graph, s: State, lane: seq<nat>) {
    |s.queues| == |g| && |s.timers| == |s.at| &&
    forall i | 0 <= i < |lane| :: lane[i] < |g| && s.queues[lane[i]] != [] && s.queues[lane[i]][0] < |s.at|
  }

  // The front ball of node i of the lane has moved one node on, or is free if it
  // was the first, and the front ball of the node behind has come in if it does not
  // have to travel.
  ghost predicate Moved(g: Graph, s: State, s': State, lane: seq<nat>, i: nat)
    requires Lane(g, lane) && Occupied(g, s, lane) && SameSize(s, s') && i < |lane|
  {
    var b := s.queues[lane[i]][0];
    && s'.queues[lane[i]] == s.queues[lane[i]][1..] +
         (if i + 1 < |lane| && g[lane[i + 1]].delay == 0 then [s.queues[lane[i + 1]][0]] else [])
    && s'.at[b] == (if i == 0 then None else Some(lane[i - 1]))
    && (i > 0 && g[lane[i]].delay > 0 ==> s'.timers[b] == g[lane[i]].delay)
  }

  // The same nodes and balls.
  predicate SameSize(s: State, s': State) {
    |s'.queues| == |s.queues| && |s'.at| == |s'.timers| == |s.at|
  }

  ghost predicate InFront(g: Graph, s: State, lane: seq<nat>, b: nat)
    requires Occupied(g, s, lane)
  {
    exists i | 0 <= i < |lane| :: s.queues[lane[i]][0] == b
  }

  // The whole lane has moved one ball on, and nothing else.
  ghost predicate Advanced(g: Graph, s: State, s': State, lane: seq<nat>)
    requires Lane(g, lane) && Occupied(g, s, lane)
  {
    && SameSize(s, s')
    && (forall i: nat | i < |lane| :: Moved(g, s, s', lane, i))
    && (forall n | 0 <= n < |g| && n !in lane :: s'.queues[n] == s.queues[n])
    && (forall b | 0 <= b < |s.at| && !InFront(g, s, lane, b) :: s'.at[b] == s.at[b] && s'.timers[b] == s.timers[b])
  }

  // What the mutual recursion is for: taking the front ball of a lane moves the
  // whole lane one ball on, and nothing else in the graph.
  lemma {:induction false} LaneAdvances(g: Graph, s: State, lane: seq<nat>)
    requires Inv(g, s) && Lane(g, lane) && LaneEnds(g, s, lane)
    requires forall i | 0 <= i < |lane| :: s.queues[lane[i]] != []
    ensures Occupied(g, s, lane) && Advanced(g, s, Remove(g, s, lane[0]).0, lane)
    decreases |lane|
  {
    hide Advanced, Remove, Delivered, LaneEnds, Pop;
    FrontsKnown(g, s, lane);
    PopKeeps(g, s, lane[0]);
    var s1, s' := Pop(s, lane[0]), Remove(g, s, lane[0]).0;
    LaneRest(g, s, lane);
    if |lane| == 1 {
      RemoveAlone(g, s, lane[0]);
      AdvanceAlone(g, s, lane, s');
    } else {
      LaneAdvances(g, s1, lane[1..]);
      RemovePulls(g, s, lane[0]);
      AdvanceOne(g, s, lane, Remove(g, s1, lane[1]).0, s');
    }
  }

  lemma FrontsKnown(g: Graph, s: State, lane: seq<nat>)
    requires Inv(g, s) && Lane(g, lane) && forall i | 0 <= i < |lane| :: s.queues[lane[i]] != []
    ensures Occupied(g, s, lane) && |s.queues[lane[0]]| <= g[lane[0]].size
    ensures forall i, j | 0 <= i < j < |lane| :: s.queues[lane[i]][0] != s.queues[lane[j]][0]
  {
    forall i | 0 <= i < |lane| ensures s.queues[lane[i]][0] < |s.at| && s.at[s.queues[lane[i]][0]] == Some(lane[i]) {
      assert NodeOk(g, s, lane[i]);
    }
    assert NodeOk(g, s, lane[0]);
  }

  // The rest of the lane once the first node's front ball is out.
  lemma LaneRest(g: Graph, s: State, lane: seq<nat>)
    requires Lane(g, lane) && Occupied(g, s, lane) && LaneEnds(g, s, lane) && |s.queues[lane[0]]| <= g[lane[0]].size
    ensures var s1, rest := Pop(s, lane[0]), lane[1..];
      if |lane| == 1 then NoneFollows(g, s1, lane[0])
      else
        && Lane(g, rest) && LaneEnds(g, s1, rest) && !NoneFollows(g, s1, lane[0])
        && g[lane[0]].prev == Some(lane[1]) && g[lane[1]].next == Some(lane[0])
        && (forall i | 0 <= i < |rest| :: s1.queues[rest[i]] == s.queues[rest[i]])
  {
    hide Full;
    PopExact(g, s, lane[0]);
    hide Pop;
    var rest := lane[1..];
    if |lane| > 1 {
      assert rest[|rest| - 1] == lane[|lane| - 1];
      assert forall i | 0 <= i < |rest| :: rest[i] == lane[i + 1];
      assert Behind(g, lane[1], lane[0]);
    }
  }

  lemma PopExact(g: Graph, s: State, n: nat)
    requires |s.queues| == |g| && n < |g| && s.queues[n] != [] && s.queues[n][0] < |s.at|
    ensures Pop(s, n) == State(s.queues[n := s.queues[n][1..]], s.at[s.queues[n][0] := None], s.timers, s.pending)
    ensures |s.queues[n]| <= g[n].size ==> !Full(g, Pop(s, n), n)
    ensures forall m | 0 <= m < |g| && m != n :: Full(g, Pop(s, n), m) <==> Full(g, s, m)
  {
  }

  lemma AdvanceAlone(g: Graph, s: State, lane: seq<nat>, s': State)
    requires Lane(g, lane) && |lane| == 1 && Occupied(g, s, lane)
    requires var n := lane[0]; s' == State(s.queues[n := s.queues[n][1..]], s.at[s.queues[n][0] := None], s.timers, s.pending)
    ensures Advanced(g, s, s', lane)
  {
    assert InFront(g, s, lane, s.queues[lane[0]][0]);
  }

  lemma AdvanceOne(g: Graph, s: State, lane: seq<nat>, r: State, s': State)
    requires Lane(g, lane) && |lane| > 1 && Occupied(g, s, lane) && |s.queues[lane[0]]| <= g[lane[0]].size
    requires forall i, j | 0 <= i < j < |lane| :: s.queues[lane[i]][0] != s.queues[lane[j]][0]
    requires var s1, rest := Pop(s, lane[0]), lane[1..];
      Lane(g, rest) && Occupied(g, s1, rest) && Advanced(g, s1, r, rest)
    requires Delivered(g, r, s', s.queues[lane[1]][0], lane[0], g[lane[1]].delay)
    ensures Advanced(g, s, s', lane)
  {
    hide Pop, Delivered, Moved, Lane, Full;
    var s1, rest := Pop(s, lane[0]), lane[1..];
    PopExact(g, s, lane[0]);
    LaneParts(g, lane);
    assert r.queues[lane[0]] == s.queues[lane[0]][1..];
    DeliveredEnters(g, r, s', s.queues[lane[1]][0], lane[0], g[lane[1]].delay);
    forall i: nat | i < |lane| ensures Moved(g, s, s', lane, i) {
      if i == 0 { FirstMoved(g, s, lane, r, s'); } else { LaterMoved(g, s, lane, r, s', i); }
    }
    forall b | 0 <= b < |s.at| && !InFront(g, s, lane, b) ensures s'.at[b] == s.at[b] && s'.timers[b] == s.timers[b] {
      NotInFront(g, s, lane, b);
    }
  }

  lemma LaneParts(g: Graph, lane: seq<nat>)
    requires Lane(g, lane) && |lane| > 1
    ensures forall i | 0 <= i < |lane| - 1 :: lane[1..][i] == lane[i + 1]
    ensures lane[0] !in lane[1..] && lane[1] < |g| && lane[0] < |g| && g[lane[0]].typed
  {
    assert Behind(g, lane[1], lane[0]);
  }

  // With room in a typed node the ball enters it, now or after its delay.
  ghost predicate Enters(r: State, s': State, b: nat, dst: nat, delay: nat) {
    && dst < |r.queues| && b < |r.at| && b < |r.timers|
    && s'.queues == (if delay == 0 then r.queues[dst := r.queues[dst] + [b]] else r.queues)
    && s'.at == r.at[b := Some(dst)]
    && s'.timers == (if delay == 0 then r.timers else r.timers[b := delay])
  }

  lemma DeliveredEnters(g: Graph, r: State, s': State, b: nat, dst: nat, delay: nat)
    requires dst < |g| && Delivered(g, r, s', b, dst, delay) && g[dst].typed && |r.queues[dst]| < g[dst].size
    ensures Enters(r, s', b, dst, delay)
  {
  }

  lemma FirstMoved(g: Graph, s: State, lane: seq<nat>, r: State, s': State)
    requires Lane(g, lane) && |lane| > 1 && Occupied(g, s, lane) && SameSize(s, r)
    requires forall i, j | 0 <= i < j < |lane| :: s.queues[lane[i]][0] != s.queues[lane[j]][0]
    requires r.queues[lane[0]] == s.queues[lane[0]][1..] && r.at[s.queues[lane[0]][0]] == None
    requires Enters(r, s', s.queues[lane[1]][0], lane[0], g[lane[1]].delay)
    ensures Moved(g, s, s', lane, 0)
  {
  }

  lemma LaterMoved(g: Graph, s: State, lane: seq<nat>, r: State, s': State, i: nat)
    requires Lane(g, lane) && |lane| > 1 && Occupied(g, s, lane) && SameSize(s, r) && 0 < i < |lane|
    requires forall i, j | 0 <= i < j < |lane| :: s.queues[lane[i]][0] != s.queues[lane[j]][0]
    requires var s1, rest := Pop(s, lane[0]), lane[1..];
      Lane(g, rest) && Occupied(g, s1, rest) && Moved(g, s1, r, rest, i - 1)
    requires Enters(r, s', s.queues[lane[1]][0], lane[0], g[lane[1]].delay)
    ensures Moved(g, s, s', lane, i)
  {
    hide Pop, Lane, Full;
    PopExact(g, s, lane[0]);
    LaneParts(g, lane);
    assert lane[i] == lane[1..][i - 1] && lane[i] != lane[0];
    assert s.queues[lane[i]][0] == s.queues[lane[1]][0] <==> i == 1;
  }

  lemma NotInFront(g: Graph, s: State, lane: seq<nat>, b: nat)
    requires Lane(g, lane) && |lane| > 1 && Occupied(g, s, lane) && !InFront(g, s, lane, b) && Occupied(g, Pop(s, lane[0]), lane[1..])
    ensures !InFront(g, Pop(s, lane[0]), lane[1..], b) && b != s.queues[lane[0]][0] && b != s.queues[lane[1]][0]
  {
    hide Pop, Lane, Full;
    PopExact(g, s, lane[0]);
    LaneParts(g, lane);
  }

  // ---------- callbacks and runs ----------

  // node_insert_delay_update: one more period has passed for ball b.
  function Update(g: Graph, s: State, b: nat): (s': State)
    requires Shaped(g, s) && b < |s.at| && s.at[b].Some? && s.at[b].value < |g|
    ensures Shaped(g, s')
  {
    var s1 := s.(pending := s.pending - multiset{Arrive(b)}, timers := s.timers[b := s.timers[b] - MIN_DELAY]);
    if s1.timers[b] <= 0 then Insert(g, s1.(at := s1.at[b := None]), s.at[b].value, b)
    else s1.(pending := s1.pending + multiset{Arrive(b)})
  }

  lemma UpdateKeeps(g: Graph, s: State, b: nat)
    requires Inv(g, s) && Arrive(b) in s.pending
    ensures BallOk(g, s, b) && Inv(g, Update(g, s, b))
  {
    assert BallOk(g, s, b);
    var s1 := s.(pending := s.pending - multiset{Arrive(b)}, timers := s.timers[b := s.timers[b] - MIN_DELAY]);
    var s2 := s1.(at := s1.at[b := None]);
    if s1.timers[b] <= 0 {
      forall m: nat | m < |g| ensures NodeOk(g, s2, m) {
        assert NodeOk(g, s, m);
      }
      forall x: nat ensures BallOk(g, s2, x) {
        assert BallOk(g, s, x);
      }
      InsertKeeps(g, s2, s.at[b].value, b);
    } else {
      var s' := s1.(pending := s1.pending + multiset{Arrive(b)});
      forall m: nat | m < |g| ensures NodeOk(g, s', m) {
        assert NodeOk(g, s, m);
      }
      forall x: nat ensures BallOk(g, s', x) {
        assert BallOk(g, s, x);
      }
    }
  }

  // A ball whose travel time is over enters its destination exactly when the
  // node is typed and has room; otherwise it belongs nowhere from then on.
  lemma ArrivalIff(g: Graph, s: State, b: nat)
    requires Inv(g, s) && Arrive(b) in s.pending && b < |s.at| && s.at[b].Some? && s.at[b].value < |g|
    requires s.timers[b] <= MIN_DELAY
    ensures var dst, s' := s.at[b].value, Update(g, s, b);
      if g[dst].typed && !Full(g, s, dst) then s'.at[b] == Some(dst) && s'.queues[dst] == s.queues[dst] + [b]
      else s'.at[b] == None && s'.queues == s.queues
  {
  }

  // The state after k more periods, none of which brings the ball to its end.
  ghost function Underway(g: Graph, s: State, b: nat, k: nat): State
    requires Shaped(g, s) && b < |s.at| && s.at[b].Some? && s.at[b].value < |g| && MIN_DELAY * k < s.timers[b]
    decreases k
  {
    if k == 0 then s else Underway(g, Update(g, s, b), b, k - 1)
  }

  // As long as whole periods do not make up its travel time a ball stays on its
  // way, and nothing else changes; ArrivalIff says what the next period does.
  lemma {:induction false} TravelLaw(g: Graph, s: State, b: nat, k: nat)
    requires Shaped(g, s) && b < |s.at| && s.at[b].Some? && s.at[b].value < |g| && MIN_DELAY * k < s.timers[b]
    requires Arrive(b) in s.pending
    ensures Underway(g, s, b, k) == s.(timers := s.timers[b := s.timers[b] - MIN_DELAY * k])
    decreases k
  {
    if k > 0 {
      var s1 := Update(g, s, b);
      assert s1.pending == s.pending;
      TravelLaw(g, s1, b, k - 1);
    }
  }

  datatype Step =
    | DoInsert(node: nat, ball: nat)
    | DoInsertDelay(node: nat, ball: nat, delay: nat)
    | DoMove(dst: Option<nat>, src: Option<nat>)
    | DoKick(node: nat)
    | DoRemove(node: nat)
    | FireKick(node: nat)
    | FireArrive(ball: nat)

  // Delayed insertion is for balls that belong nowhere.
  ghost predicate Enabled(g: Graph, s: State, e: Step) {
    match e
    case DoInsert(n, b) => n < |g| && b < |s.at|
    case DoInsertDelay(n, b, _) => n < |g| && b < |s.at| && s.at[b] == None
    case DoMove(dst, src) => (dst.Some? ==> dst.value < |g|) && (src.Some? ==> src.value < |g|)
    case DoKick(n) => n < |g|
    case DoRemove(n) => n < |g|
    case FireKick(n) => KickLater(n) in s.pending
    case FireArrive(b) => Arrive(b) in s.pending
  }

  // The step brings a ball into the graph from outside.
  predicate Brings(e: Step, b: nat) {
    (e.DoInsert? || e.DoInsertDelay?) && e.ball == b
  }

  lemma KickFiredKeeps(g: Graph, s: State, n: nat)
    requires Inv(g, s) && KickLater(n) in s.pending
    ensures Inv(g, s.(pending := s.pending - multiset{KickLater(n)}))
  {
    var s' := s.(pending := s.pending - multiset{KickLater(n)});
    forall m: nat | m < |g| ensures NodeOk(g, s', m) {
      assert NodeOk(g, s, m);
    }
    forall x: nat ensures BallOk(g, s', x) {
      assert BallOk(g, s, x);
    }
  }

  ghost function Next(g: Graph, s: State, e: Step): (s': State)
    requires Inv(g, s) && Enabled(g, s, e)
    ensures Inv(g, s')
    ensures |s'.at| == |s.at|
    ensures forall b | 0 <= b < |s.at| && s.at[b] == None && !Brings(e, b) :: s'.at[b] == None
  {
    match e
    case DoInsert(n, b) => InsertKeeps(g, s, n, b); Insert(g, s, n, b)
    case DoInsertDelay(n, b, delay) => InsertDelayKeeps(g, s, n, b, delay); InsertDelay(s, n, b, delay)
    case DoMove(dst, src) => Move(g, s, dst, src)
    case DoKick(n) => Kick(g, s, n)
    case DoRemove(n) => Remove(g, s, n).0
    case FireKick(n) => KickFiredKeeps(g, s, n); Kick(g, s.(pending := s.pending - multiset{KickLater(n)}), n)
    case FireArrive(b) => UpdateKeeps(g, s, b); Update(g, s, b)
  }

  ghost predicate ProperRun(g: Graph, s: State, steps: seq<Step>)
    requires Inv(g, s)
    decreases |steps|
  {
    steps == [] || (Enabled(g, s, steps[0]) && ProperRun(g, Next(g, s, steps[0]), steps[1..]))
  }

  ghost function Run(g: Graph, s: State, steps: seq<Step>): State
    requires Inv(g, s) && ProperRun(g, s, steps)
    decreases |steps|
  {
    if steps == [] then s else Run(g, Next(g, s, steps[0]), steps[1..])
  }

  // Over every sequence of inserts, moves, kicks and callbacks no ball is in
  // two places, queues respect their sizes, and a ball that belongs nowhere
  // stays so until somebody inserts it.
  lemma {:induction false} RunKeepsInv(g: Graph, s: State, steps: seq<Step>)
    requires Inv(g, s) && ProperRun(g, s, steps)
    ensures Inv(g, Run(g, s, steps)) && |Run(g, s, steps).at| == |s.at|
    ensures forall b | 0 <= b < |s.at| && s.at[b] == None && (forall e | e in steps :: !Brings(e, b)) ::
              Run(g, s, steps).at[b] == None
    decreases |steps|
  {
    if steps != [] {
      RunKeepsInv(g, Next(g, s, steps[0]), steps[1..]);
      assert steps[0] in steps;
      assert forall e | e in steps[1..] :: e in steps;
    }
  }

  // At the start every ball is free and every node empty.
  function Init(g: Graph, balls: nat): State {
    State(seq(|g|, _ => []), seq(balls, _ => None), seq(balls, _ => 0), multiset{})
  }

  lemma InitInv(g: Graph, balls: nat)
    ensures Inv(g, Init(g, balls))
  {
  }

  // ---------- what goes wrong otherwise ----------

  // Two balls in a node that delays them, and a next node for one.
  function Narrow(): Graph {
    [Node(Some(1), None, 2, true, MIN_DELAY, false), Node(None, None, 1, true, 0, false)]
  }

  function Empty(): State {
    State([[], []], [None, None], [0, 0], multiset{})
  }

  function First(): State {
    State([[0], []], [Some(0), None], [0, 0], multiset{})
  }

  function Both(): State {
    State([[0, 1], []], [Some(0), Some(0)], [0, 0], multiset{})
  }

  function Followed(): State {
    State([[1], []], [Some(1), Some(0)], [MIN_DELAY, 0], multiset{Arrive(0)})
  }

  function Travelling(): State {
    State([[], []], [Some(1), Some(1)], [MIN_DELAY, MIN_DELAY], multiset{Arrive(0), Arrive(1)})
  }

  function Arrived(): State {
    State([[], [0]], [Some(1), Some(1)], [0, MIN_DELAY], multiset{Arrive(1)})
  }

  function Lost(): State {
    State([[], [0]], [Some(1), None], [0, 0], multiset{})
  }

  lemma BothInserted()
    ensures Init(Narrow(), 2) == Empty()
    ensures Insert(Narrow(), Empty(), 0, 0) == First() && Insert(Narrow(), First(), 0, 1) == Both()
    ensures Inv(Narrow(), Both())
  {
    var g := Narrow();
    InitInv(g, 2);
    var s := Init(g, 2);
    assert s.queues == [[], []] && s.at == [None, None] && s.timers == [0, 0];
    InsertKeeps(g, Empty(), 0, 0);
    var s1, s2 := Insert(g, Empty(), 0, 0), Insert(g, First(), 0, 1);
    assert s1.queues[0] == [0] && s1.queues == [[0], []] && s1.at == [Some(0), None];
    InsertKeeps(g, First(), 0, 1);
    assert s2.queues[0] == [0, 1] && s2.queues == [[0, 1], []] && s2.at == [Some(0), Some(0)];
  }

  lemma FirstKicked()
    requires Inv(Narrow(), Both())
    ensures Kick(Narrow(), Both(), 0) == Followed()
  {
    var s := Kick(Narrow(), Both(), 0);
    assert Remove(Narrow(), Both(), 0).0 == Pop(Both(), 0);
    assert s.queues == [[1], []] && s.at == [Some(1), Some(0)] && s.timers == [MIN_DELAY, 0];
  }

  lemma SecondKicked()
    requires Inv(Narrow(), Followed())
    ensures Kick(Narrow(), Followed(), 0) == Travelling()
  {
    var s := Kick(Narrow(), Followed(), 0);
    assert Remove(Narrow(), Followed(), 0).0 == Pop(Followed(), 0);
    assert s.queues == [[], []] && s.at == [Some(1), Some(1)] && s.timers == [MIN_DELAY, MIN_DELAY];
    assert s.pending == multiset{Arrive(0)} + multiset{Arrive(1)};
  }

  lemma ArrivedFirst()
    ensures Update(Narrow(), Travelling(), 0) == Arrived()
  {
    var s := Update(Narrow(), Travelling(), 0);
    assert s.queues[1] == [0] && s.queues == [[], [0]];
    assert s.at == [Some(1), Some(1)] && s.timers == [0, MIN_DELAY];
    assert s.pending == multiset{Arrive(1)};
  }

  lemma ArrivedSecond()
    ensures Update(Narrow(), Arrived(), 1) == Lost()
  {
    var s := Update(Narrow(), Arrived(), 1);
    assert s.at == [Some(1), None] && s.timers == [0, 0];
  }

  // It happens: both are kicked while the next node is empty, and the second
  // one is lost when it arrives.
  lemma SecondArrivalLost()
    ensures Init(Narrow(), 2) == Empty()
    ensures Insert(Narrow(), Empty(), 0, 0) == First() && Insert(Narrow(), First(), 0, 1) == Both()
    ensures Inv(Narrow(), Both()) && Kick(Narrow(), Both(), 0) == Followed()
    ensures Inv(Narrow(), Followed()) && Kick(Narrow(), Followed(), 0) == Travelling()
    ensures Update(Narrow(), Travelling(), 0) == Arrived() && Update(Narrow(), Arrived(), 1) == Lost()
  {
    hide Inv, Kick, Update, Insert, Init;
    BothInserted();
    FirstKicked();
    SecondKicked();
    ArrivedFirst();
    ArrivedSecond();
  }
}
