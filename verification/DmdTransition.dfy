/**
 Display transitions as they run: page buffers written in place through two
 windows, the page allocator, and the transition loop.
 */
module DmdTransitions {
  import opened Machine
  import D = Dmd

  // Copies n bytes between two different buffers.
  method BlockCopy(dst: array<U8>, to: nat, src: array<U8>, from: nat, n: nat)
    requires dst != src && to + n <= dst.Length && from + n <= src.Length
    modifies dst
    ensures dst[..] == old(dst[..to]) + src[from..from + n] + old(dst[to + n..])
  {
    for i := 0 to n
      invariant dst[..] == old(dst[..to]) + src[from..from + i] + old(dst[to + i..])
    {
      dst[to + i] := src[from + i];
    }
  }

  class Display {
    const pages: seq<array<U8>>
    var free: nat
    var low: nat
    var high: nat
    var dark: nat
    var bright: nat
    var ptr: int
    var ptr2: int
    var inTransition: bool

    ghost predicate Buffers() {
      && |pages| == D.PAGES
      && (forall i | 0 <= i < |pages| :: pages[i].Length == D.PAGE_SIZE)
      && (forall i, j | 0 <= i < j < |pages| :: pages[i] != pages[j])
    }

    ghost predicate Valid()
      reads this
    {
      Buffers() && low < D.PAGES && high < D.PAGES
    }

    // What is on the pages.
    ghost function Pictures(): (r: seq<D.Page>)
      requires Buffers()
      reads pages
      ensures |r| == D.PAGES
    {
      seq(D.PAGES, i requires 0 <= i < D.PAGES && Buffers() reads pages => pages[i][..])
    }

    ghost function Abs(): (s: D.State)
      requires Valid()
      reads this, pages
    {
      D.State(Pictures(), free, dark, bright, ptr, ptr2, inTransition)
    }

    method Alloc() returns (page: nat)
      modifies this`free
      ensures page == old(free) && free == D.NextFree(page)
    {
      page := free;
      free := free + 2;
      if free >= D.ALLOC_PAGES { free := 0; }
    }

    method AllocComposite(newDark: nat, newBright: nat) returns (c: nat)
      requires free < D.ALLOC_PAGES && free % 2 == 0
      modifies this`free
      ensures c == D.Composite(old(free), newDark, newBright) && free == D.NextFree(c)
    {
      D.CompositeFresh(free, newDark, newBright);
      ghost var first, tries := free, 0;
      c := Alloc();
      while c == newDark - newDark % 2 || c == newBright - newBright % 2
        invariant free == D.NextFree(c)
        invariant tries == 0 ==> c == first
        invariant tries == 1 ==> D.Taken(first, newDark, newBright) && c == D.NextFree(first)
        invariant tries == 2 ==>
          && D.Taken(first, newDark, newBright) && D.Taken(D.NextFree(first), newDark, newBright)
          && c == D.NextFree(D.NextFree(first))
        invariant 0 <= tries <= 2
        decreases 2 - tries
      {
        c := Alloc();
        tries := tries + 1;
      }
    }

    // The old picture in the low window, shifted into the high window.
    method CompositeOld(t: D.Scroll)
      requires Valid() && t.Valid() && low != high
      modifies pages[high]
      ensures pages[high][..] == D.FromOld(t, old(pages[high][..]), pages[low][..])
    {
      if t.up {
        BlockCopy(pages[high], 0, pages[low], t.arg, D.PAGE_SIZE - t.arg);
      } else {
        BlockCopy(pages[high], t.arg, pages[low], 0, D.PAGE_SIZE - t.arg);
      }
    }

    // The next rows of the new picture in the low window.
    method CompositeNew(t: D.Scroll)
      requires Valid() && t.Valid() && low != high && 0 <= ptr <= D.PAGE_SIZE - t.arg
      modifies this`ptr, this`inTransition, pages[high]
      ensures pages[high][..] == D.FromNew(t, old(pages[high][..]), pages[low][..], old(ptr))
      ensures ptr == D.Advance(t, old(ptr))
      ensures inTransition == (old(inTransition) && !D.AtEnd(t, ptr))
    {
      if t.up {
        BlockCopy(pages[high], D.PAGE_SIZE - t.arg, pages[low], ptr, t.arg);
        ptr := ptr + t.arg;
        if ptr == D.PAGE_SIZE { inTransition := false; }
      } else {
        BlockCopy(pages[high], 0, pages[low], ptr, t.arg);
        ptr := ptr - t.arg;
        if ptr < 0 { inTransition := false; }
      }
    }

    // One plane; the composite is mapped into the high window.
    method Cycle(t: D.Scroll, oldPage: nat, newPage: nat)
      requires Valid() && t.Valid() && oldPage < D.PAGES && newPage < D.PAGES && oldPage != high && newPage != high
      requires 0 <= ptr <= D.PAGE_SIZE - t.arg
      modifies this`low, this`ptr, this`inTransition, pages[high]
      ensures Valid() && low == newPage
      ensures Pictures() == D.Render(t, old(Pictures()), high, oldPage, newPage, old(ptr))
      ensures ptr == D.Advance(t, old(ptr)) && inTransition == (old(inTransition) && !D.AtEnd(t, ptr))
    {
      ghost var p0 := Pictures();
      low := oldPage;
      CompositeOld(t);
      ghost var p1 := Pictures();
      assert p1 == p0[high := D.FromOld(t, p0[high], p0[oldPage])];
      low := newPage;
      CompositeNew(t);
      assert Pictures() == p1[high := D.FromNew(t, p1[high], p1[newPage], old(ptr))];
    }

    // Both planes, onto the pair c.
    method Planes(t: D.Scroll, c: nat, newDark: nat, newBright: nat)
      requires Valid() && D.Shaped(t, Abs()) && newDark < D.PAGES && newBright < D.PAGES && c + 1 < D.PAGES
      requires c != dark && c != newDark && c + 1 != bright && c + 1 != newBright
      modifies this`low, this`high, this`ptr, this`ptr2, this`inTransition, pages
      ensures Valid()
      ensures Pictures() ==
        D.Render(t, D.Render(t, old(Pictures()), c, dark, newDark, old(ptr)), c + 1, bright, newBright, old(ptr2))
      ensures ptr == D.Advance(t, old(ptr)) && ptr2 == D.Advance(t, old(ptr2))
      ensures inTransition == (old(inTransition) && !D.AtEnd(t, ptr) && !D.AtEnd(t, ptr2))
    {
      hide D.Render, D.AtEnd, D.Advance;
      assert 0 <= ptr <= D.PAGE_SIZE - t.arg && 0 <= ptr2 <= D.PAGE_SIZE - t.arg && dark < D.PAGES && bright < D.PAGES;
      hide D.Shaped;
      high := c;
      Cycle(t, dark, newDark);
      ptr, ptr2 := ptr2, ptr;
      high := c + 1;
      Cycle(t, bright, newBright);
      ptr, ptr2 := ptr2, ptr;
    }

    method Frame(t: D.Scroll, newDark: nat, newBright: nat)
      requires Valid() && D.Shaped(t, Abs()) && newDark < D.PAGES && newBright < D.PAGES
      requires var c := D.Composite(free, newDark, newBright); c != D.Pair(dark) && c != D.Pair(bright)
      modifies this, pages
      ensures Valid() && Abs() == D.Frame(t, old(Abs()), newDark, newBright)
    {
      hide D.Render, D.AtEnd, D.Advance, D.Composite;
      D.CompositeFresh(free, newDark, newBright);
      D.CompositeApart(free, dark, newDark, newBright);
      D.CompositeApart(free, bright, newDark, newBright);
      var c := AllocComposite(newDark, newBright);
      Planes(t, c, newDark, newBright);
      dark := c;
      bright := c + 1;
    }

    // The transition loop, from scheduling to the end.  The step of a scroll up
    // divides the page, and the first composite is none of the visible pages.
    method DoTransition(t: D.Scroll)
      requires Valid() && t.Valid() && (t.up ==> D.PAGE_SIZE % t.arg == 0)
      requires free < D.ALLOC_PAGES && free % 2 == 0 && dark < D.PAGES && bright < D.PAGES
      requires var c := D.Composite(free, low, high); c != D.Pair(dark) && c != D.Pair(bright)
      requires inTransition
      modifies this, pages
      ensures Valid() && !inTransition && dark < D.PAGES && bright < D.PAGES
      ensures var start := old(Abs()).(ptr := D.Start(t), ptr2 := D.Start(t));
        D.Frames(t, start, old(low), old(high), D.FrameCount(t)) == Some(Abs())
      ensures pages[dark][..] == D.Scrolled(t, old(pages[dark][..]), old(pages[low][..]), D.FinalRows(t))
      ensures pages[bright][..] == D.Scrolled(t, old(pages[bright][..]), old(pages[high][..]), D.FinalRows(t))
    {
      hide D.Turned, D.Frame, D.Frames, D.Scrolled, D.Composite, D.FinalRows, D.FrameCount, D.Start;
      var newDark, newBright := low, high;
      ptr := D.Start(t);
      ptr2 := ptr;
      ghost var s := Abs();
      ghost var k: nat := 0;
      D.FirstTurn(t, s, newDark, newBright);
      while inTransition
        invariant Valid() && D.Turned(t, s, Abs(), newDark, newBright, k)
        decreases D.FrameCount(t) - k
      {
        D.NextTurn(t, s, Abs(), newDark, newBright, k);
        Frame(t, newDark, newBright);
        k := k + 1;
      }
      D.LastTurn(t, s, Abs(), newDark, newBright, k);
    }
  }
}
