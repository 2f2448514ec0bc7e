/**
 The generic byte queue: a ring buffer with a head and a tail offset.  It is
 empty when they are equal, and nothing checks for a full ring.
 */
module Queues {
  import opened Machine

  // A ring of `qlen` slots holds at most qlen - 1 elements: one more insertion
  // makes the offsets equal, which reads as an empty queue.
  function Insert<T>(contents: seq<T>, qlen: nat, v: T): seq<T> {
    if |contents| + 1 < qlen then contents + [v] else []
  }

  // What a ring of bytes holds between two offsets.
  function Between(elems: seq<U8>, head: nat, tail: nat): seq<U8>
    requires head < |elems| && tail < |elems|
  {
    if head <= tail then elems[head..tail] else elems[head..] + elems[..tail]
  }

  function NextOff(off: nat, qlen: nat): nat {
    if off + 1 == qlen then 0 else off + 1
  }

  lemma MaskIsNext(off: nat)
    requires off < 8
    ensures (off + 1) % 8 == NextOff(off, 8)
  {
    if off < 7 { DivModUnique(off + 1, 8, 0, off + 1); } else { DivModUnique(8, 8, 1, 0); }
  }

  // The front element leaves when the head moves on.
  lemma TakeFront(elems: seq<U8>, head: nat, tail: nat)
    requires head < |elems| && tail < |elems| && head != tail
    ensures NextOff(head, |elems|) < |elems|
    ensures [elems[head]] + Between(elems, NextOff(head, |elems|), tail) == Between(elems, head, tail)
  {
    if head < tail {
      assert elems[head..tail] == [elems[head]] + elems[head + 1..tail];
    } else if head + 1 == |elems| {
      assert elems[head..] == [elems[head]] && elems[0..tail] == elems[..tail];
    } else {
      assert elems[head..] == [elems[head]] + elems[head + 1..];
    }
  }

  // An element written at the tail is the last one, unless the tail meets the
  // head.
  lemma PutBack(elems: seq<U8>, head: nat, tail: nat, v: U8)
    requires head < |elems| && tail < |elems|
    ensures var next := NextOff(tail, |elems|);
      next < |elems| && Between(elems[tail := v], head, next) == Insert(Between(elems, head, tail), |elems|, v)
  {
    var after, next := elems[tail := v], NextOff(tail, |elems|);
    assert |Between(elems, head, tail)| == if head <= tail then tail - head else |elems| - head + tail;
    if head == next {
      assert after[head..head] == [];
    } else if head <= tail {
      assert after[head..tail + 1] == elems[head..tail] + [v];
      if tail + 1 == |elems| { assert after[head..] == after[head..tail + 1] && after[..0] == []; }
    } else {
      assert after[head..] == elems[head..] && after[..tail + 1] == elems[..tail] + [v];
    }
  }

  class ByteQueue {
    var headOff: nat
    var tailOff: nat
    const elems: array<U8>

    ghost predicate Valid()
      reads this
    {
      headOff < elems.Length && tailOff < elems.Length && elems.Length <= 0xff
    }

    ghost function Contents(): (s: seq<U8>)
      requires Valid()
      reads this, elems
    {
      Between(elems[..], headOff, tailOff)
    }

    constructor (qlen: nat)
      requires 0 < qlen <= 0xff
      ensures Valid() && Contents() == [] && elems.Length == qlen
      ensures fresh(elems)
    {
      elems := new U8[qlen](_ => 0);
      headOff, tailOff := 0, 0;
    }

    method Init()
      requires elems.Length != 0 && elems.Length <= 0xff
      modifies this
      ensures Valid() && Contents() == []
    {
      headOff, tailOff := 0, 0;
    }

    method Put(v: U8)
      requires Valid()
      modifies this`tailOff, elems
      ensures Valid()
      ensures Contents() == Insert(old(Contents()), elems.Length, v)
    {
      hide Between;
      PutBack(elems[..], headOff, tailOff, v);
      elems[tailOff] := v;
      tailOff := tailOff + 1;
      if tailOff == elems.Length { tailOff := 0; }
    }

    // The caller has checked that the queue is not empty.
    method Take() returns (v: U8)
      requires Valid() && Contents() != []
      modifies this`headOff
      ensures Valid()
      ensures [v] + Contents() == old(Contents())
    {
      assert headOff != tailOff;
      hide Between;
      TakeFront(elems[..], headOff, tailOff);
      v := elems[headOff];
      if elems.Length == 8 {
        MaskIsNext(headOff);
        headOff := (headOff + 1) % 8;
      } else {
        headOff := headOff + 1;
        if headOff == elems.Length { headOff := 0; }
      }
    }

    method IsEmpty() returns (empty: bool)
      requires Valid()
      ensures empty <==> Contents() == []
    {
      assert headOff != tailOff ==> |Contents()| > 0;
      return headOff == tailOff;
    }
  }

  // It happens: a second byte put into a ring of two empties it.
  lemma RingOverrun(a: U8, b: U8)
    ensures Insert(Insert([], 2, a), 2, b) == []
  {
  }

  // The ring is a faithful FIFO for one more element exactly while it has a
  // slot to spare.
  lemma FifoIff<T>(contents: seq<T>, qlen: nat, v: T)
    ensures Insert(contents, qlen, v) == contents + [v] <==> |contents| + 1 < qlen
  {
    assert (contents + [v])[|contents|] == v;
  }
}
