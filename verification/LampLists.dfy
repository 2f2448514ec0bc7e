/**
 Lamp lists: lamps in an order, with breaks that ask for a delay in between.
 Rotating a list moves the state of every lamp to the next or to the previous
 one, around the end, in a single pass over the matrix.
 */
module LampLists {
  import opened Machine

  const LAMPS := 64
  const LAMP_BREAK := LAMPS + 3

  // A list without its end marker; it may not start with a break.
  predicate LampList(list: seq<nat>) {
    list != [] && list[0] != LAMP_BREAK && forall i | 0 <= i < |list| :: list[i] < LAMPS || list[i] == LAMP_BREAK
  }

  predicate Matrix(m: seq<bool>) { |m| == LAMPS }

  // The lamps themselves, in order.
  function Lamps(list: seq<nat>): (l: seq<nat>)
    ensures forall x :: x in l <==> x in list && x != LAMP_BREAK
  {
    if list == [] then [] else (if list[0] == LAMP_BREAK then [] else [list[0]]) + Lamps(list[1..])
  }

  predicate Distinct(l: seq<nat>) {
    forall i, j | 0 <= i < j < |l| :: l[i] != l[j]
  }

  // The last entry that is a lamp, looking back from the end of a prefix.
  function LastEntry(list: seq<nat>): (lamp: nat)
    requires list != [] && list[0] != LAMP_BREAK
    ensures lamp in list && lamp != LAMP_BREAK
  {
    var n := |list| - 1;
    if list[n] == LAMP_BREAK then LastEntry(list[..n]) else list[n]
  }

  // ---------- the two passes ----------

  predicate Inside(list: seq<nat>) {
    forall i | 0 <= i < |list| :: list[i] < LAMPS || list[i] == LAMP_BREAK
  }

  // Each lamp gets the state carried along and passes its own one on.
  function NextFrom(m: seq<bool>, list: seq<nat>, state: bool): (r: seq<bool>)
    requires Matrix(m) && Inside(list)
    ensures Matrix(r)
    decreases |list|
  {
    if list == [] then m
    else if list[0] == LAMP_BREAK then NextFrom(m, list[1..], state)
    else NextFrom(m[list[0] := state], list[1..], m[list[0]])
  }

  function RotateNext(m: seq<bool>, list: seq<nat>): (r: seq<bool>)
    requires Matrix(m) && LampList(list)
    ensures Matrix(r)
  {
    NextFrom(m, list, m[LastEntry(list)])
  }

  // The lamp before, if there is one, gets the state of each lamp; the very
  // last one gets the state of the first.
  function PreviousFrom(m: seq<bool>, list: seq<nat>, before: Option<nat>, first: bool): (r: seq<bool>)
    requires Matrix(m) && Inside(list) && (before.Some? ==> before.value < LAMPS)
    ensures Matrix(r)
    decreases |list|
  {
    if list == [] then (if before.Some? then m[before.value := first] else m)
    else if list[0] == LAMP_BREAK then PreviousFrom(m, list[1..], before, first)
    else PreviousFrom(if before.Some? then m[before.value := m[list[0]]] else m, list[1..], Some(list[0]), first)
  }

  function RotatePrevious(m: seq<bool>, list: seq<nat>): (r: seq<bool>)
    requires Matrix(m) && LampList(list)
    ensures Matrix(r)
  {
    PreviousFrom(m, list, None, m[list[0]])
  }

  // ---------- what they do ----------

  lemma {:induction false} LampsInside(list: seq<nat>)
    requires Inside(list)
    ensures forall i | 0 <= i < |Lamps(list)| :: Lamps(list)[i] < LAMPS
  {
    if list != [] { LampsInside(list[1..]); }
  }

  lemma {:induction false} LampsSnoc(list: seq<nat>, x: nat)
    ensures Lamps(list + [x]) == Lamps(list) + if x == LAMP_BREAK then [] else [x]
  {
    if list == [] {
      assert [x][1..] == [] && list + [x] == [x];
    } else {
      LampsSnoc(list[1..], x);
      assert (list + [x])[1..] == list[1..] + [x];
    }
  }

  lemma {:induction false} LastIsLast(list: seq<nat>)
    requires list != [] && list[0] != LAMP_BREAK
    ensures Lamps(list) != [] && LastEntry(list) == Lamps(list)[|Lamps(list)| - 1]
  {
    var n := |list| - 1;
    LampsSnoc(list[..n], list[n]);
    assert list == list[..n] + [list[n]];
    if list[n] == LAMP_BREAK { LastIsLast(list[..n]); }
  }

  // Some lamps, all different.
  predicate Different(l: seq<nat>) {
    Distinct(l) && forall i | 0 <= i < |l| :: l[i] < LAMPS
  }

  // The passes on the lamps alone.
  function ShiftIn(m: seq<bool>, l: seq<nat>, state: bool): (r: seq<bool>)
    requires Matrix(m) && Different(l)
    ensures Matrix(r)
    decreases |l|
  {
    if l == [] then m else ShiftIn(m[l[0] := state], l[1..], m[l[0]])
  }

  function ShiftBack(m: seq<bool>, l: seq<nat>, state: bool): (r: seq<bool>)
    requires Matrix(m) && Different(l)
    ensures Matrix(r)
    decreases |l|
  {
    if l == [] then m else if |l| == 1 then m[l[0] := state] else ShiftBack(m[l[0] := m[l[1]]], l[1..], state)
  }

  // What shifting does to every lamp of the matrix.
  lemma {:induction false} ShiftInIs(m: seq<bool>, l: seq<nat>, state: bool)
    requires Matrix(m) && Different(l)
    ensures forall x | 0 <= x < LAMPS && x !in l :: ShiftIn(m, l, state)[x] == m[x]
    ensures l != [] ==> ShiftIn(m, l, state)[l[0]] == state
    ensures forall k | 1 <= k < |l| :: ShiftIn(m, l, state)[l[k]] == m[l[k - 1]]
    decreases |l|
  {
    if l != [] {
      var next, rest, r := m[l[0] := state], l[1..], ShiftIn(m, l, state);
      ShiftInIs(next, rest, m[l[0]]);
      assert l[0] !in rest;
      forall k | 1 <= k < |l| ensures r[l[k]] == m[l[k - 1]] {
        assert l[k] == rest[k - 1];
        if k > 1 { assert l[k - 1] == rest[k - 2]; }
      }
    }
  }

  lemma {:induction false} ShiftBackIs(m: seq<bool>, l: seq<nat>, state: bool)
    requires Matrix(m) && Different(l)
    ensures forall x | 0 <= x < LAMPS && x !in l :: ShiftBack(m, l, state)[x] == m[x]
    ensures l != [] ==> ShiftBack(m, l, state)[l[|l| - 1]] == state
    ensures forall k | 0 <= k < |l| - 1 :: ShiftBack(m, l, state)[l[k]] == m[l[k + 1]]
    decreases |l|
  {
    if |l| > 1 {
      var next, rest, r := m[l[0] := m[l[1]]], l[1..], ShiftBack(m, l, state);
      ShiftBackIs(next, rest, state);
      assert l[0] !in rest && rest[|rest| - 1] == l[|l| - 1];
      forall k | 0 <= k < |l| - 1 ensures r[l[k]] == m[l[k + 1]] {
        if k > 0 { assert l[k] == rest[k - 1] && l[k + 1] == rest[k]; }
      }
    }
  }

  // Breaks make no difference to the passes.
  lemma {:induction false} NextSkipsBreaks(m: seq<bool>, list: seq<nat>, state: bool)
    requires Matrix(m) && Inside(list) && Different(Lamps(list))
    ensures NextFrom(m, list, state) == ShiftIn(m, Lamps(list), state)
    decreases |list|
  {
    if list != [] {
      LampsTail(list);
      if list[0] == LAMP_BREAK {
        NextSkipsBreaks(m, list[1..], state);
      } else {
        NextSkipsBreaks(m[list[0] := state], list[1..], m[list[0]]);
      }
    }
  }

  lemma LampsTail(list: seq<nat>)
    requires list != []
    ensures if list[0] == LAMP_BREAK then Lamps(list) == Lamps(list[1..])
      else Lamps(list) == [list[0]] + Lamps(list[1..]) && Lamps(list)[1..] == Lamps(list[1..])
  {
  }

  lemma {:induction false} PreviousSkipsBreaks(m: seq<bool>, list: seq<nat>, before: nat, first: bool)
    requires Matrix(m) && Inside(list) && before < LAMPS && Different([before] + Lamps(list))
    ensures PreviousFrom(m, list, Some(before), first) == ShiftBack(m, [before] + Lamps(list), first)
    decreases |list|
  {
    var l := [before] + Lamps(list);
    assert l[0] == before;
    if list != [] {
      LampsTail(list);
      if list[0] == LAMP_BREAK {
        PreviousSkipsBreaks(m, list[1..], before, first);
      } else {
        assert l[1..] == [list[0]] + Lamps(list[1..]) && l[1] == list[0];
        PreviousSkipsBreaks(m[before := m[list[0]]], list[1..], list[0], first);
      }
    }
  }

  // ---------- rotations ----------

  // A list of different lamps, with breaks anywhere but at the start.
  predicate Rotatable(list: seq<nat>) {
    LampList(list) && Distinct(Lamps(list))
  }

  // The place d lamps before the k-th, around the end.
  function Before(k: nat, d: int, n: nat): (i: nat)
    requires n > 0
    ensures i < n
  {
    (k - d) % n
  }

  // r is m with the states of the lamps moved d lamps on, around the end, and
  // all other lamps as they were.
  predicate Rotated(m: seq<bool>, r: seq<bool>, l: seq<nat>, d: int)
    requires Matrix(m) && Matrix(r) && Different(l)
  {
    && (forall x | 0 <= x < LAMPS && x !in l :: r[x] == m[x])
    && (forall k | 0 <= k < |l| :: r[l[k]] == m[l[Before(k, d, |l|)]])
  }

  lemma BeforeIs(k: nat, n: nat)
    requires k < n
    ensures Before(k, 0, n) == k && Before(k, n, n) == k
    ensures Before(k, 1, n) == if k == 0 then n - 1 else k - 1
    ensures Before(k, -1, n) == if k == n - 1 then 0 else k + 1
  {
    DivModUnique(k, n, 0, k);
    DivModUnique(k - n, n, -1, k);
    if k == 0 { DivModUnique(-1, n, -1, n - 1); } else { DivModUnique(k - 1, n, 0, k - 1); }
    if k == n - 1 { DivModUnique(k + 1, n, 1, 0); } else { DivModUnique(k + 1, n, 0, k + 1); }
  }

  lemma BeforeAdds(k: nat, a: int, b: int, n: nat)
    requires n > 0
    ensures Before(Before(k, b, n), a, n) == Before(k, a + b, n)
  {
    var q, i := (k - b) / n, (k - b) % n;
    var p, j := (i - a) / n, (i - a) % n;
    assert k - b == n * q + i && i - a == n * p + j;
    assert k - (a + b) == n * (q + p) + j;
    DivModUnique(k - (a + b), n, q + p, j);
  }

  lemma ListDifferent(list: seq<nat>)
    requires Rotatable(list)
    ensures Lamps(list) != [] && Different(Lamps(list))
  {
    LampsInside(list);
    LampsTail(list);
  }

  lemma OneOn(m: seq<bool>, r: seq<bool>, l: seq<nat>)
    requires Matrix(m) && Matrix(r) && Different(l) && l != []
    requires forall x | 0 <= x < LAMPS && x !in l :: r[x] == m[x]
    requires r[l[0]] == m[l[|l| - 1]] && forall k | 1 <= k < |l| :: r[l[k]] == m[l[k - 1]]
    ensures Rotated(m, r, l, 1)
  {
    hide Before;
    forall k | 0 <= k < |l| ensures r[l[k]] == m[l[Before(k, 1, |l|)]] { BeforeIs(k, |l|); }
  }

  lemma OneBack(m: seq<bool>, r: seq<bool>, l: seq<nat>)
    requires Matrix(m) && Matrix(r) && Different(l) && l != []
    requires forall x | 0 <= x < LAMPS && x !in l :: r[x] == m[x]
    requires r[l[|l| - 1]] == m[l[0]] && forall k | 0 <= k < |l| - 1 :: r[l[k]] == m[l[k + 1]]
    ensures Rotated(m, r, l, -1)
  {
    hide Before;
    forall k | 0 <= k < |l| ensures r[l[k]] == m[l[Before(k, -1, |l|)]] { BeforeIs(k, |l|); }
  }

  // Rotating forward moves every state one lamp on, the last one to the
  // first lamp.
  lemma RotateNextIs(m: seq<bool>, list: seq<nat>)
    requires Matrix(m) && Rotatable(list)
    ensures Different(Lamps(list)) && Rotated(m, RotateNext(m, list), Lamps(list), 1)
  {
    hide NextFrom, ShiftIn, LastEntry, Lamps, Distinct, Rotated;
    ListDifferent(list);
    LastIsLast(list);
    var state := m[LastEntry(list)];
    NextSkipsBreaks(m, list, state);
    ShiftInIs(m, Lamps(list), state);
    OneOn(m, RotateNext(m, list), Lamps(list));
  }

  lemma PreviousStarts(m: seq<bool>, list: seq<nat>)
    requires Matrix(m) && Rotatable(list)
    ensures Lamps(list) != [] && Lamps(list)[0] == list[0] && Different(Lamps(list))
    ensures RotatePrevious(m, list) == ShiftBack(m, Lamps(list), m[list[0]])
  {
    ListDifferent(list);
    LampsTail(list);
    hide ShiftBack, Lamps;
    PreviousSkipsBreaks(m, list[1..], list[0], m[list[0]]);
  }

  // Rotating back moves every state one lamp back.
  lemma RotatePreviousIs(m: seq<bool>, list: seq<nat>)
    requires Matrix(m) && Rotatable(list)
    ensures Different(Lamps(list)) && Rotated(m, RotatePrevious(m, list), Lamps(list), -1)
  {
    hide PreviousFrom, RotatePrevious, ShiftBack, Lamps, Distinct, Rotated;
    PreviousStarts(m, list);
    ShiftBackIs(m, Lamps(list), m[list[0]]);
    OneBack(m, RotatePrevious(m, list), Lamps(list));
  }

  // One rotation after another.
  lemma RotatedAdds(m: seq<bool>, r: seq<bool>, s: seq<bool>, l: seq<nat>, a: int, b: int)
    requires Matrix(m) && Matrix(r) && Matrix(s) && Different(l) && Rotated(m, r, l, a) && Rotated(r, s, l, b)
    ensures Rotated(m, s, l, a + b)
  {
    hide Before;
    forall k | 0 <= k < |l| ensures s[l[k]] == m[l[Before(k, a + b, |l|)]] {
      var i := Before(k, b, |l|);
      assert s[l[k]] == r[l[i]] == m[l[Before(i, a, |l|)]];
      BeforeAdds(k, a, b, |l|);
    }
  }

  // Not at all, or the whole way around.
  lemma RotatedNot(m: seq<bool>, r: seq<bool>, l: seq<nat>, d: int)
    requires Matrix(m) && Matrix(r) && Different(l) && Rotated(m, r, l, d) && (d == 0 || d == |l|)
    ensures r == m
  {
    hide Before;
    forall x | 0 <= x < LAMPS ensures r[x] == m[x] {
      if x in l {
        var k :| 0 <= k < |l| && l[k] == x;
        BeforeIs(k, |l|);
      }
    }
  }

  // Each direction undoes the other.
  lemma RotationsInverse(m: seq<bool>, list: seq<nat>)
    requires Matrix(m) && Rotatable(list)
    ensures RotatePrevious(RotateNext(m, list), list) == m
    ensures RotateNext(RotatePrevious(m, list), list) == m
  {
    hide RotateNext, RotatePrevious, Rotated, Lamps;
    var l, next, previous := Lamps(list), RotateNext(m, list), RotatePrevious(m, list);
    RotateNextIs(m, list);
    RotatePreviousIs(m, list);
    RotatePreviousIs(next, list);
    RotateNextIs(previous, list);
    RotatedAdds(m, next, RotatePrevious(next, list), l, 1, -1);
    RotatedAdds(m, previous, RotateNext(previous, list), l, -1, 1);
    RotatedNot(m, RotatePrevious(next, list), l, 0);
    RotatedNot(m, RotateNext(previous, list), l, 0);
  }

  function Rotations(m: seq<bool>, list: seq<nat>, n: nat): (r: seq<bool>)
    requires Matrix(m) && LampList(list)
    ensures Matrix(r)
  {
    if n == 0 then m else RotateNext(Rotations(m, list, n - 1), list)
  }

  // After n rotations every state is n lamps further on; after as many as
  // there are lamps nothing has changed.
  lemma {:induction false} RotationsIs(m: seq<bool>, list: seq<nat>, n: nat)
    requires Matrix(m) && Rotatable(list)
    ensures Different(Lamps(list)) && Rotated(m, Rotations(m, list, n), Lamps(list), n)
    ensures n == |Lamps(list)| ==> Rotations(m, list, n) == m
  {
    hide RotateNext, Lamps, Rotated, Distinct;
    ListDifferent(list);
    var l, r := Lamps(list), Rotations(m, list, n);
    if n == 0 {
      NotRotated(m, l);
    } else {
      var before := Rotations(m, list, n - 1);
      RotationsIs(m, list, n - 1);
      RotateNextIs(before, list);
      RotatedAdds(m, before, r, l, n - 1, 1);
    }
    if n == |l| { RotatedNot(m, r, l, n); }
  }

  lemma NotRotated(m: seq<bool>, l: seq<nat>)
    requires Matrix(m) && Different(l)
    ensures Rotated(m, m, l, 0)
  {
    hide Before;
    forall k | 0 <= k < |l| ensures m[l[k]] == m[l[Before(k, 0, |l|)]] { BeforeIs(k, |l|); }
  }
}
