/**
 Display transitions: the vertical scrolls, composed frame by frame on fresh
 page pairs from a round-robin allocator.  A frame has a dark and a bright
 plane, each composed from an old and a new page.
 */
module Dmd {
  import opened Machine

  const PAGE_SIZE := 512
  const PAGES := 16
  // Two pages are reserved for overlays and two are kept blank.
  const ALLOC_PAGES := 12

  type Page = p: seq<U8> | |p| == PAGE_SIZE witness seq(PAGE_SIZE, _ => 0)

  // A scroll by `arg` bytes per frame.
  datatype Scroll = Scroll(up: bool, arg: nat) {
    predicate Valid() { 0 < arg < PAGE_SIZE }
  }

  /**
   The pages, the next page the allocator hands out, the visible pages, the
   offsets into the new page where each plane's next rows start, and whether
   the transition goes on.
   */
  datatype State = State(pages: seq<Page>, free: nat, dark: nat, bright: nat, ptr: int, ptr2: int, inTransition: bool)

  // The even page of the pair a page belongs to.
  function Pair(page: nat): nat { page - page % 2 }

  function NextFree(page: nat): nat {
    if page + 2 >= ALLOC_PAGES then 0 else page + 2
  }

  predicate Taken(page: nat, newDark: nat, newBright: nat) {
    page == Pair(newDark) || page == Pair(newBright)
  }

  // The first pair from `free` on that does not hold a new page.
  function Composite(free: nat, newDark: nat, newBright: nat): nat {
    if !Taken(free, newDark, newBright) then free
    else if !Taken(NextFree(free), newDark, newBright) then NextFree(free)
    else NextFree(NextFree(free))
  }

  // Where a plane's pointer starts.
  function Start(t: Scroll): int {
    if t.up then 0 else PAGE_SIZE - t.arg
  }

  // The composite after the old rows are copied in, shifted.
  function FromOld(t: Scroll, composite: Page, old_: Page): Page
    requires t.Valid()
  {
    if t.up then old_[t.arg..] + composite[PAGE_SIZE - t.arg..]
    else composite[..t.arg] + old_[..PAGE_SIZE - t.arg]
  }

  // The composite after the next new rows are copied in.
  function FromNew(t: Scroll, composite: Page, new_: Page, ptr: int): Page
    requires t.Valid() && 0 <= ptr <= PAGE_SIZE - t.arg
  {
    if t.up then composite[..PAGE_SIZE - t.arg] + new_[ptr..ptr + t.arg]
    else new_[ptr..ptr + t.arg] + composite[t.arg..]
  }

  function Advance(t: Scroll, ptr: int): int {
    if t.up then ptr + t.arg else ptr - t.arg
  }

  predicate AtEnd(t: Scroll, ptr: int) {
    if t.up then ptr == PAGE_SIZE else ptr < 0
  }

  predicate Shaped(t: Scroll, s: State) {
    && t.Valid() && |s.pages| == PAGES
    && s.free < ALLOC_PAGES && s.free % 2 == 0
    && s.dark < PAGES && s.bright < PAGES
    && 0 <= s.ptr <= PAGE_SIZE - t.arg && 0 <= s.ptr2 <= PAGE_SIZE - t.arg
  }

  // One plane of a frame: the pages with the composite rendered.
  function Render(t: Scroll, pages: seq<Page>, composite: nat, oldPage: nat, newPage: nat, ptr: int): (r: seq<Page>)
    requires t.Valid() && |pages| == PAGES && composite < PAGES && oldPage < PAGES && newPage < PAGES
    requires 0 <= ptr <= PAGE_SIZE - t.arg
    ensures |r| == PAGES
  {
    var p1 := pages[composite := FromOld(t, pages[composite], pages[oldPage])];
    p1[composite := FromNew(t, p1[composite], p1[newPage], ptr)]
  }

  // One turn of the transition loop.
  function Frame(t: Scroll, s: State, newDark: nat, newBright: nat): State
    requires Shaped(t, s) && newDark < PAGES && newBright < PAGES
  {
    var c := Composite(s.free, newDark, newBright);
    var p1 := Render(t, s.pages, c, s.dark, newDark, s.ptr);
    var p2 := Render(t, p1, c + 1, s.bright, newBright, s.ptr2);
    State(p2, NextFree(c), c, c + 1, Advance(t, s.ptr), Advance(t, s.ptr2),
          s.inTransition && !AtEnd(t, Advance(t, s.ptr)) && !AtEnd(t, Advance(t, s.ptr2)))
  }

  // ---------- the allocator ----------

  // The allocator never hands out a pair that holds a new page, and after
  // handing out a pair hands out a different one.
  lemma CompositeFresh(free: nat, newDark: nat, newBright: nat)
    requires free < ALLOC_PAGES && free % 2 == 0
    ensures var c := Composite(free, newDark, newBright);
      && c < ALLOC_PAGES && c % 2 == 0 && !Taken(c, newDark, newBright)
      && Composite(NextFree(c), newDark, newBright) != c
  {
  }

  // ---------- the picture ----------

  // The picture after the scroll has moved `rows` bytes.
  function Scrolled(t: Scroll, old_: Page, new_: Page, rows: nat): Page
    requires rows <= PAGE_SIZE
  {
    if t.up then old_[rows..] + new_[..rows] else new_[PAGE_SIZE - rows..] + old_[..PAGE_SIZE - rows]
  }

  // How far the pointers are after the scroll has moved `rows` bytes.
  function PtrAt(t: Scroll, rows: int): int {
    if t.up then rows else PAGE_SIZE - t.arg - rows
  }

  // `rows` bytes into a transition from the old to the new pictures.
  ghost predicate Midway(t: Scroll, s: State, newDark: nat, newBright: nat,
                         oldD: Page, oldB: Page, newD: Page, newB: Page, rows: nat)
  {
    && |s.pages| == PAGES && t.Valid() && newDark < PAGES && newBright < PAGES
    && s.free < ALLOC_PAGES && s.free % 2 == 0 && s.dark < PAGES && s.bright < PAGES
    && rows <= PAGE_SIZE
    && s.ptr == PtrAt(t, rows) && s.ptr2 == PtrAt(t, rows)
    && s.pages[newDark] == newD && s.pages[newBright] == newB
    && s.pages[s.dark] == Scrolled(t, oldD, newD, rows)
    && s.pages[s.bright] == Scrolled(t, oldB, newB, rows)
    && Composite(s.free, newDark, newBright) != Pair(s.dark)
    && Composite(s.free, newDark, newBright) != Pair(s.bright)
  }

  // Copying in shifted old rows and then new rows moves the picture one step.
  lemma ComposeStep(t: Scroll, old_: Page, new_: Page, composite: Page, rows: nat)
    requires t.Valid() && rows + t.arg <= PAGE_SIZE
    ensures FromNew(t, FromOld(t, composite, Scrolled(t, old_, new_, rows)), new_, PtrAt(t, rows))
         == Scrolled(t, old_, new_, rows + t.arg)
  {
    if t.up {
      ComposeUp(old_, new_, composite, rows, t.arg);
    } else {
      ComposeDown(old_, new_, composite, rows, t.arg);
    }
  }

  lemma ComposeUp(old_: Page, new_: Page, composite: Page, rows: nat, arg: nat)
    requires rows + arg <= PAGE_SIZE
    ensures ((old_[rows..] + new_[..rows])[arg..] + composite[PAGE_SIZE - arg..])[..PAGE_SIZE - arg] + new_[rows..rows + arg]
         == old_[rows + arg..] + new_[..rows + arg]
  {
    assert (old_[rows..] + new_[..rows])[arg..] == old_[rows + arg..] + new_[..rows];
    assert new_[..rows + arg] == new_[..rows] + new_[rows..rows + arg];
  }

  lemma ComposeDown(old_: Page, new_: Page, composite: Page, rows: nat, arg: nat)
    requires rows + arg <= PAGE_SIZE
    ensures var shown := new_[PAGE_SIZE - rows..] + old_[..PAGE_SIZE - rows];
      new_[PAGE_SIZE - arg - rows..PAGE_SIZE - rows] + (composite[..arg] + shown[..PAGE_SIZE - arg])[arg..]
         == new_[PAGE_SIZE - (rows + arg)..] + old_[..PAGE_SIZE - (rows + arg)]
  {
    var shown, r := new_[PAGE_SIZE - rows..] + old_[..PAGE_SIZE - rows], rows + arg;
    assert shown[..PAGE_SIZE - arg] == new_[PAGE_SIZE - rows..] + old_[..PAGE_SIZE - r];
    assert (composite[..arg] + shown[..PAGE_SIZE - arg])[arg..] == shown[..PAGE_SIZE - arg];
    assert new_[PAGE_SIZE - r..] == new_[PAGE_SIZE - r..PAGE_SIZE - rows] + new_[PAGE_SIZE - rows..];
  }

  // Rendering one plane moves its picture one step, onto the composite page.
  lemma RenderStep(t: Scroll, pages: seq<Page>, c: nat, oldPage: nat, newPage: nat, old_: Page, new_: Page, rows: nat)
    requires t.Valid() && |pages| == PAGES && c < PAGES && oldPage < PAGES && newPage < PAGES && c != newPage
    requires rows + t.arg <= PAGE_SIZE
    requires pages[oldPage] == Scrolled(t, old_, new_, rows) && pages[newPage] == new_
    ensures Render(t, pages, c, oldPage, newPage, PtrAt(t, rows)) == pages[c := Scrolled(t, old_, new_, rows + t.arg)]
  {
    ComposeStep(t, old_, new_, pages[c], rows);
  }

  // The pages after a frame composed on pair c.
  lemma FramePages(t: Scroll, pages: seq<Page>, c: nat, dark: nat, bright: nat, newDark: nat, newBright: nat,
                   oldD: Page, oldB: Page, newD: Page, newB: Page, rows: nat)
    requires t.Valid() && |pages| == PAGES && c + 1 < PAGES
    requires dark < PAGES && bright < PAGES && newDark < PAGES && newBright < PAGES && rows + t.arg <= PAGE_SIZE
    requires c != bright && c != newDark && c != newBright && c + 1 != newBright
    requires pages[newDark] == newD && pages[newBright] == newB
    requires pages[dark] == Scrolled(t, oldD, newD, rows) && pages[bright] == Scrolled(t, oldB, newB, rows)
    ensures Render(t, Render(t, pages, c, dark, newDark, PtrAt(t, rows)), c + 1, bright, newBright, PtrAt(t, rows))
         == pages[c := Scrolled(t, oldD, newD, rows + t.arg)][c + 1 := Scrolled(t, oldB, newB, rows + t.arg)]
  {
    RenderStep(t, pages, c, dark, newDark, oldD, newD, rows);
    RenderStep(t, pages[c := Scrolled(t, oldD, newD, rows + t.arg)], c + 1, bright, newBright, oldB, newB, rows);
  }

  // The next composite pair is none of the pages the frame uses.
  lemma CompositeApart(free: nat, page: nat, newDark: nat, newBright: nat)
    requires free < ALLOC_PAGES && free % 2 == 0
    ensures var c := Composite(free, newDark, newBright);
      && c != newDark && c != newBright && c + 1 != newDark && c + 1 != newBright
      && (c != Pair(page) ==> c != page && c + 1 != page)
      && Pair(c) == c && Pair(c + 1) == c
  {
    CompositeFresh(free, newDark, newBright);
    hide Composite, Pair;
    var c := Composite(free, newDark, newBright);
    EvenPair(c, newDark);
    EvenPair(c, newBright);
    EvenPair(c, page);
  }

  // An even page is the first of its pair, and holds only the two pages of it.
  lemma EvenPair(c: nat, page: nat)
    requires c % 2 == 0
    ensures Pair(c) == c && Pair(c + 1) == c
    ensures c != Pair(page) ==> c != page && c + 1 != page
  {
  }

  lemma MidwayShaped(t: Scroll, s: State, newDark: nat, newBright: nat, oldD: Page, oldB: Page, newD: Page, newB: Page, rows: nat)
    requires Midway(t, s, newDark, newBright, oldD, oldB, newD, newB, rows) && rows + t.arg <= PAGE_SIZE
    ensures Shaped(t, s)
  {
    hide Scrolled, Composite, Pair;
  }

  // A frame composes the pictures one step further on a pair not in use.
  lemma FrameIs(t: Scroll, s: State, newDark: nat, newBright: nat, oldD: Page, oldB: Page, newD: Page, newB: Page, rows: nat)
    requires Midway(t, s, newDark, newBright, oldD, oldB, newD, newB, rows) && rows + t.arg <= PAGE_SIZE
    ensures Shaped(t, s)
    ensures var c, f := Composite(s.free, newDark, newBright), Frame(t, s, newDark, newBright);
      && c + 1 < PAGES
      && f.pages == s.pages[c := Scrolled(t, oldD, newD, rows + t.arg)][c + 1 := Scrolled(t, oldB, newB, rows + t.arg)]
      && f.free == NextFree(c) && f.dark == c && f.bright == c + 1
      && f.ptr == PtrAt(t, rows + t.arg) && f.ptr2 == PtrAt(t, rows + t.arg)
  {
    hide Composite, Pair, NextFree, Taken, Scrolled, Render, AtEnd, Shaped;
    MidwayShaped(t, s, newDark, newBright, oldD, oldB, newD, newB, rows);
    CompositeFresh(s.free, newDark, newBright);
    CompositeApart(s.free, s.bright, newDark, newBright);
    FramePages(t, s.pages, Composite(s.free, newDark, newBright), s.dark, s.bright, newDark, newBright,
               oldD, oldB, newD, newB, rows);
  }

  // Every frame moves both planes one step, and leaves the new pages alone.
  lemma FrameMoves(t: Scroll, s: State, newDark: nat, newBright: nat, oldD: Page, oldB: Page, newD: Page, newB: Page, rows: nat)
    requires Midway(t, s, newDark, newBright, oldD, oldB, newD, newB, rows) && rows + t.arg <= PAGE_SIZE
    ensures Shaped(t, s)
    ensures Midway(t, Frame(t, s, newDark, newBright), newDark, newBright, oldD, oldB, newD, newB, rows + t.arg)
  {
    FrameIs(t, s, newDark, newBright, oldD, oldB, newD, newB, rows);
    CompositeFresh(s.free, newDark, newBright);
    CompositeApart(s.free, s.bright, newDark, newBright);
    NextFreeValid(Composite(s.free, newDark, newBright));
    hide Frame, Composite, Pair, NextFree, Taken, Scrolled, PtrAt;
  }

  lemma NextFreeValid(page: nat)
    requires page < ALLOC_PAGES && page % 2 == 0
    ensures NextFree(page) < ALLOC_PAGES && NextFree(page) % 2 == 0
  {
  }

  // From a state midway with room for a step: a frame can be composed, and its
  // end test.
  lemma MidwayFacts(t: Scroll, s: State, newDark: nat, newBright: nat, oldD: Page, oldB: Page, newD: Page, newB: Page, rows: nat)
    requires Midway(t, s, newDark, newBright, oldD, oldB, newD, newB, rows) && rows + t.arg <= PAGE_SIZE
    ensures Shaped(t, s)
    ensures Frame(t, s, newDark, newBright).inTransition == (s.inTransition && !AtEnd(t, PtrAt(t, rows + t.arg)))
  {
  }

  // Before the first frame nothing has moved.
  lemma MidwayStart(t: Scroll, s: State, newDark: nat, newBright: nat)
    requires t.Valid() && |s.pages| == PAGES && newDark < PAGES && newBright < PAGES
    requires s.free < ALLOC_PAGES && s.free % 2 == 0 && s.dark < PAGES && s.bright < PAGES
    requires s.ptr == s.ptr2 == Start(t)
    requires var c := Composite(s.free, newDark, newBright); c != Pair(s.dark) && c != Pair(s.bright)
    ensures Midway(t, s, newDark, newBright, s.pages[s.dark], s.pages[s.bright], s.pages[newDark], s.pages[newBright], 0)
  {
    NotScrolled(t, s.pages[s.dark], s.pages[newDark]);
    NotScrolled(t, s.pages[s.bright], s.pages[newBright]);
  }

  lemma NotScrolled(t: Scroll, old_: Page, new_: Page)
    ensures Scrolled(t, old_, new_, 0) == old_
  {
    assert old_[0..] + new_[..0] == old_ && new_[PAGE_SIZE..] + old_[..PAGE_SIZE] == old_;
  }

  // ---------- the end ----------

  // How far a scroll has come when its loop ends.
  function FinalRows(t: Scroll): (rows: nat)
    requires t.Valid()
    ensures rows <= PAGE_SIZE
  {
    if t.up then PAGE_SIZE else DownRows(t)
  }

  // How far k steps go.
  function Steps(t: Scroll, k: nat): nat { t.arg * k }

  lemma OneStep(t: Scroll, k: nat)
    ensures Steps(t, 0) == 0 && Steps(t, k + 1) == Steps(t, k) + t.arg
  {
  }

  // A transition about to start.
  ghost predicate Primed(t: Scroll, s: State, newDark: nat, newBright: nat) {
    && t.Valid() && |s.pages| == PAGES && newDark < PAGES && newBright < PAGES
    && s.free < ALLOC_PAGES && s.free % 2 == 0 && s.dark < PAGES && s.bright < PAGES
    && s.ptr == s.ptr2 == Start(t)
  }

  // The pair the next frame is composed on is not on the screen.
  predicate NextHidden(s: State, newDark: nat, newBright: nat) {
    var c := Composite(s.free, newDark, newBright);
    c != Pair(s.dark) && c != Pair(s.bright)
  }

  ghost predicate Ready(t: Scroll, s: State, newDark: nat, newBright: nat) {
    Primed(t, s, newDark, newBright) && NextHidden(s, newDark, newBright)
  }

  // The state after k frames, each a turn of the transition loop; none if a
  // frame would read outside a new page.
  function Frames(t: Scroll, s: State, newDark: nat, newBright: nat, k: nat): Option<State>
    requires newDark < PAGES && newBright < PAGES
    decreases k
  {
    if k == 0 then Some(s)
    else
      var f := Frames(t, s, newDark, newBright, k - 1);
      if f.None? || !Shaped(t, f.value) then None else Some(Frame(t, f.value, newDark, newBright))
  }

  // f shows the picture of s after `rows` bytes.
  ghost predicate Shows(t: Scroll, s: State, f: State, newDark: nat, newBright: nat, rows: nat)
    requires Ready(t, s, newDark, newBright)
  {
    Midway(t, f, newDark, newBright, s.pages[s.dark], s.pages[s.bright], s.pages[newDark], s.pages[newBright], rows)
  }

  lemma ShowsNext(t: Scroll, s: State, f: State, newDark: nat, newBright: nat, rows: nat)
    requires Ready(t, s, newDark, newBright) && Shows(t, s, f, newDark, newBright, rows) && rows + t.arg <= PAGE_SIZE
    ensures Shaped(t, f) && Shows(t, s, Frame(t, f, newDark, newBright), newDark, newBright, rows + t.arg)
  {
    hide Midway, Frame;
    FrameMoves(t, f, newDark, newBright, s.pages[s.dark], s.pages[s.bright], s.pages[newDark], s.pages[newBright], rows);
  }

  // After k frames both visible planes are the old ones shifted by k steps,
  // joined to the matching part of the new ones, which are untouched.
  lemma {:induction false} AfterFrames(t: Scroll, s: State, newDark: nat, newBright: nat, k: nat)
    requires Ready(t, s, newDark, newBright) && newDark < PAGES && newBright < PAGES && Steps(t, k) <= PAGE_SIZE
    ensures var f := Frames(t, s, newDark, newBright, k); f.Some? && Shows(t, s, f.value, newDark, newBright, Steps(t, k))
    decreases k
  {
    hide Shows, Frame, Steps, Ready;
    OneStep(t, 0);
    if k == 0 {
      assert Frames(t, s, newDark, newBright, 0) == Some(s);
      ShowsFirst(t, s, newDark, newBright);
    } else {
      OneStep(t, k - 1);
      AfterFrames(t, s, newDark, newBright, k - 1);
      ShowsNext(t, s, Frames(t, s, newDark, newBright, k - 1).value, newDark, newBright, Steps(t, k - 1));
    }
  }

  lemma ShowsFirst(t: Scroll, s: State, newDark: nat, newBright: nat)
    requires Ready(t, s, newDark, newBright)
    ensures Shows(t, s, s, newDark, newBright, 0)
  {
    MidwayStart(t, s, newDark, newBright);
  }

  // ---------- which frames there are ----------

  // The frames whose rows lie inside the new page.
  function FrameCount(t: Scroll): nat
    requires t.Valid()
  {
    PAGE_SIZE / t.arg
  }

  // The end test is met on the way: a scroll down passes the start of the new
  // page, a scroll up has to come to its end exactly.
  predicate Meets(t: Scroll)
    requires t.Valid()
  {
    !t.up || PAGE_SIZE % t.arg == 0
  }

  lemma CountedSteps(t: Scroll, k: nat)
    requires t.Valid()
    ensures k <= FrameCount(t) <==> Steps(t, k) <= PAGE_SIZE
    ensures k < FrameCount(t) <==> Steps(t, k) + t.arg <= PAGE_SIZE
  {
    var n := FrameCount(t);
    assert PAGE_SIZE == t.arg * n + PAGE_SIZE % t.arg && t.arg * (n - k) == t.arg * n - t.arg * k;
    if n - k >= 1 { AtLeast(t.arg, n - k); }
    if k - n >= 1 { AtLeast(t.arg, k - n); }
  }

  lemma LastStep(t: Scroll)
    requires t.Valid()
    ensures Steps(t, FrameCount(t)) == PAGE_SIZE <==> PAGE_SIZE % t.arg == 0
  {
    assert PAGE_SIZE == t.arg * FrameCount(t) + PAGE_SIZE % t.arg;
  }

  // The end test after the rows of k steps.
  lemma EndTest(t: Scroll, k: nat)
    requires t.Valid() && 0 < k <= FrameCount(t)
    ensures AtEnd(t, PtrAt(t, Steps(t, k))) <==> k == FrameCount(t) && Meets(t)
  {
    CountedSteps(t, k);
    LastStep(t);
    hide Steps, FrameCount;
  }

  // Frame k shows the picture k steps on, and the loop is going unless k is the
  // last whole step and the end test is met there.
  ghost predicate Going(t: Scroll, s: State, newDark: nat, newBright: nat, k: nat)
    requires Ready(t, s, newDark, newBright)
  {
    var f := Frames(t, s, newDark, newBright, k);
    && f.Some? && Shows(t, s, f.value, newDark, newBright, Steps(t, k))
    && (f.value.inTransition <==> k < FrameCount(t) || !Meets(t))
  }

  lemma GoingNext(t: Scroll, s: State, newDark: nat, newBright: nat, k: nat)
    requires Ready(t, s, newDark, newBright) && k < FrameCount(t) && Going(t, s, newDark, newBright, k)
    ensures Going(t, s, newDark, newBright, k + 1)
  {
    var f := Frames(t, s, newDark, newBright, k);
    GoingOn(t, s, f.value, newDark, newBright, k);
    assert Frames(t, s, newDark, newBright, k + 1) == Some(Frame(t, f.value, newDark, newBright));
    hide *;
  }

  lemma GoingOn(t: Scroll, s: State, f: State, newDark: nat, newBright: nat, k: nat)
    requires Ready(t, s, newDark, newBright) && k < FrameCount(t) && Shows(t, s, f, newDark, newBright, Steps(t, k))
    requires f.inTransition
    ensures Shaped(t, f) && newDark < PAGES && newBright < PAGES
    ensures var next := Frame(t, f, newDark, newBright);
      && Shows(t, s, next, newDark, newBright, Steps(t, k + 1))
      && (next.inTransition <==> k + 1 < FrameCount(t) || !Meets(t))
  {
    assert t.Valid();
    StepRoom(t, k);
    hide *;
    ShowsEnd(t, s, f, newDark, newBright, Steps(t, k));
    ShowsNext(t, s, f, newDark, newBright, Steps(t, k));
  }

  lemma StepRoom(t: Scroll, k: nat)
    requires t.Valid() && k < FrameCount(t)
    ensures Steps(t, k) + t.arg == Steps(t, k + 1) <= PAGE_SIZE
    ensures AtEnd(t, PtrAt(t, Steps(t, k + 1))) <==> k + 1 >= FrameCount(t) && Meets(t)
  {
    hide Steps, AtEnd, PtrAt, FrameCount, Meets;
    CountedSteps(t, k);
    OneStep(t, k);
    EndTest(t, k + 1);
  }

  lemma {:induction false} FramesGo(t: Scroll, s: State, newDark: nat, newBright: nat, k: nat)
    requires Ready(t, s, newDark, newBright) && s.inTransition && k <= FrameCount(t)
    ensures Going(t, s, newDark, newBright, k)
    decreases k
  {
    hide *;
    if k == 0 {
      GoingFirst(t, s, newDark, newBright);
    } else {
      FramesGo(t, s, newDark, newBright, k - 1);
      GoingNext(t, s, newDark, newBright, k - 1);
    }
  }

  lemma GoingFirst(t: Scroll, s: State, newDark: nat, newBright: nat)
    requires Ready(t, s, newDark, newBright) && s.inTransition
    ensures Going(t, s, newDark, newBright, 0)
  {
    assert t.Valid() && newDark < PAGES && newBright < PAGES;
    hide Shows, Steps, FrameCount, Meets, Ready, Frame, Shaped;
    OneStep(t, 0);
    CountedSteps(t, 0);
    ShowsFirst(t, s, newDark, newBright);
  }

  lemma ShowsEnd(t: Scroll, s: State, f: State, newDark: nat, newBright: nat, rows: nat)
    requires Ready(t, s, newDark, newBright) && Shows(t, s, f, newDark, newBright, rows) && rows + t.arg <= PAGE_SIZE
    ensures Shaped(t, f)
    ensures Frame(t, f, newDark, newBright).inTransition == (f.inTransition && !AtEnd(t, PtrAt(t, rows + t.arg)))
  {
    MidwayFacts(t, f, newDark, newBright, s.pages[s.dark], s.pages[s.bright], s.pages[newDark], s.pages[newBright], rows);
    hide Midway, Frame;
  }

  // After k turns of the loop its state is f.
  ghost predicate Turned(t: Scroll, s: State, f: State, newDark: nat, newBright: nat, k: nat)
    requires Ready(t, s, newDark, newBright) && newDark < PAGES && newBright < PAGES
  {
    k <= FrameCount(t) && Frames(t, s, newDark, newBright, k) == Some(f) && Going(t, s, newDark, newBright, k)
  }

  lemma FirstTurn(t: Scroll, s: State, newDark: nat, newBright: nat)
    requires Ready(t, s, newDark, newBright) && newDark < PAGES && newBright < PAGES && s.inTransition
    ensures Turned(t, s, s, newDark, newBright, 0)
  {
    hide Going, Ready;
    GoingFirst(t, s, newDark, newBright);
  }

  lemma NextTurn(t: Scroll, s: State, f: State, newDark: nat, newBright: nat, k: nat)
    requires Ready(t, s, newDark, newBright) && newDark < PAGES && newBright < PAGES && Meets(t)
    requires Turned(t, s, f, newDark, newBright, k) && f.inTransition
    ensures k < FrameCount(t) && Shaped(t, f) && NextHidden(f, newDark, newBright)
    ensures Turned(t, s, Frame(t, f, newDark, newBright), newDark, newBright, k + 1)
  {
    hide NextHidden, Shows, Shaped, Frame, Steps, FrameCount, Meets;
    StepRoom(t, k);
    ShowsNext(t, s, f, newDark, newBright, Steps(t, k));
    ShowsHidden(t, s, f, newDark, newBright, Steps(t, k));
    GoingNext(t, s, newDark, newBright, k);
  }

  lemma ShowsHidden(t: Scroll, s: State, f: State, newDark: nat, newBright: nat, rows: nat)
    requires Ready(t, s, newDark, newBright) && Shows(t, s, f, newDark, newBright, rows)
    ensures NextHidden(f, newDark, newBright)
  {
    hide Scrolled, Composite, Pair, Primed;
  }

  // The loop ends after all its frames, with both planes scrolled all the way.
  lemma LastTurn(t: Scroll, s: State, f: State, newDark: nat, newBright: nat, k: nat)
    requires Ready(t, s, newDark, newBright) && newDark < PAGES && newBright < PAGES && Meets(t)
    requires Turned(t, s, f, newDark, newBright, k) && !f.inTransition
    ensures Frames(t, s, newDark, newBright, FrameCount(t)) == Some(f)
    ensures |f.pages| == |s.pages| == PAGES
    ensures s.dark < PAGES && s.bright < PAGES && f.dark < PAGES && f.bright < PAGES
    ensures f.pages[f.dark] == Scrolled(t, s.pages[s.dark], s.pages[newDark], FinalRows(t))
    ensures f.pages[f.bright] == Scrolled(t, s.pages[s.bright], s.pages[newBright], FinalRows(t))
  {
    hide Scrolled, Composite, Pair, Frames, Steps, FrameCount, FinalRows;
    WholeSteps(t);
  }

  lemma WholeSteps(t: Scroll)
    requires t.Valid() && Meets(t)
    ensures Steps(t, FrameCount(t)) == FinalRows(t)
  {
    assert PAGE_SIZE == t.arg * FrameCount(t) + PAGE_SIZE % t.arg;
  }

  ghost predicate Beyond(t: Scroll, s: State, newDark: nat, newBright: nat, k: nat)
    requires newDark < PAGES && newBright < PAGES
  {
    Frames(t, s, newDark, newBright, k).None?
  }

  lemma BeyondFirst(t: Scroll, s: State, newDark: nat, newBright: nat)
    requires Ready(t, s, newDark, newBright) && s.inTransition
    ensures t.Valid() && newDark < PAGES && newBright < PAGES && Beyond(t, s, newDark, newBright, FrameCount(t) + 1)
  {
    FramesGo(t, s, newDark, newBright, FrameCount(t));
    CountedSteps(t, FrameCount(t));
    NoRoom(t, s, Frames(t, s, newDark, newBright, FrameCount(t)).value, newDark, newBright, Steps(t, FrameCount(t)));
    hide Shows, Frame, Shaped, Steps, FrameCount, Meets;
  }

  lemma BeyondNext(t: Scroll, s: State, newDark: nat, newBright: nat, k: nat)
    requires newDark < PAGES && newBright < PAGES && Beyond(t, s, newDark, newBright, k)
    ensures Beyond(t, s, newDark, newBright, k + 1)
  {
    hide Frame, Shaped;
  }

  // There is no frame after one that cannot be composed.
  lemma {:induction false} BeyondStays(t: Scroll, s: State, newDark: nat, newBright: nat, j: nat, k: nat)
    requires newDark < PAGES && newBright < PAGES && Beyond(t, s, newDark, newBright, j) && j <= k
    ensures Beyond(t, s, newDark, newBright, k)
    decreases k
  {
    hide *;
    if j < k {
      BeyondStays(t, s, newDark, newBright, j, k - 1);
      BeyondNext(t, s, newDark, newBright, k - 1);
    }
  }

  // The frame after the last whole step would read outside the new page.
  lemma NoMoreFrames(t: Scroll, s: State, newDark: nat, newBright: nat, k: nat)
    requires Ready(t, s, newDark, newBright) && s.inTransition && k > FrameCount(t)
    ensures newDark < PAGES && newBright < PAGES && Beyond(t, s, newDark, newBright, k)
  {
    hide *;
    BeyondFirst(t, s, newDark, newBright);
    BeyondStays(t, s, newDark, newBright, FrameCount(t) + 1, k);
  }

  lemma NoRoom(t: Scroll, s: State, f: State, newDark: nat, newBright: nat, rows: nat)
    requires Ready(t, s, newDark, newBright) && Shows(t, s, f, newDark, newBright, rows) && rows + t.arg > PAGE_SIZE
    ensures f.ptr == PtrAt(t, rows) && !Shaped(t, f)
  {
  }

  // The loop has ended after k frames.
  ghost predicate Ended(t: Scroll, s: State, newDark: nat, newBright: nat, k: nat)
    requires newDark < PAGES && newBright < PAGES
  {
    var f := Frames(t, s, newDark, newBright, k);
    f.Some? && !f.value.inTransition
  }

  // The loop ends inside the new pages if and only if it scrolls down or its
  // step divides the page, and then after exactly as many frames as there are
  // whole steps.  A scroll up with another step is still going after those, and
  // its next frame reads past the end of the new pages.
  lemma EndsIff(t: Scroll, s: State, newDark: nat, newBright: nat)
    requires Ready(t, s, newDark, newBright) && newDark < PAGES && newBright < PAGES && s.inTransition
    ensures (exists k: nat :: Ended(t, s, newDark, newBright, k)) <==> !t.up || PAGE_SIZE % t.arg == 0
    ensures forall k: nat :: Ended(t, s, newDark, newBright, k) ==> k == FrameCount(t)
    ensures forall k: nat :: Frames(t, s, newDark, newBright, k).Some? <==> k <= FrameCount(t)
    ensures var f := Frames(t, s, newDark, newBright, FrameCount(t));
      !Meets(t) ==> f.value.inTransition && f.value.ptr < PAGE_SIZE < f.value.ptr + t.arg
  {
    var n := FrameCount(t);
    LastFrame(t, s, newDark, newBright);
    forall k: nat
      ensures Ended(t, s, newDark, newBright, k) <==> k == n && Meets(t)
      ensures Frames(t, s, newDark, newBright, k).Some? <==> k <= n
    {
      EndedIff(t, s, newDark, newBright, k);
    }
    assert Meets(t) ==> Ended(t, s, newDark, newBright, n);
    hide *;
  }

  lemma EndedIff(t: Scroll, s: State, newDark: nat, newBright: nat, k: nat)
    requires Ready(t, s, newDark, newBright) && newDark < PAGES && newBright < PAGES && s.inTransition
    ensures Ended(t, s, newDark, newBright, k) <==> k == FrameCount(t) && Meets(t)
    ensures Frames(t, s, newDark, newBright, k).Some? <==> k <= FrameCount(t)
  {
    if k <= FrameCount(t) {
      FramesGo(t, s, newDark, newBright, k);
    } else {
      NoMoreFrames(t, s, newDark, newBright, k);
    }
    hide Frames, Shows, FrameCount, Ready, Meets;
  }

  lemma LastFrame(t: Scroll, s: State, newDark: nat, newBright: nat)
    requires Ready(t, s, newDark, newBright) && newDark < PAGES && newBright < PAGES && s.inTransition
    ensures Frames(t, s, newDark, newBright, FrameCount(t)).Some?
    ensures var f := Frames(t, s, newDark, newBright, FrameCount(t)).value;
      !Meets(t) ==> f.inTransition && f.ptr < PAGE_SIZE < f.ptr + t.arg
  {
    var n := FrameCount(t);
    FramesGo(t, s, newDark, newBright, n);
    CountedSteps(t, n);
    LastStep(t);
    NoRoom(t, s, Frames(t, s, newDark, newBright, n).value, newDark, newBright, Steps(t, n));
    hide Frames, Shows, FrameCount, Ready, Steps, Shaped;
  }

  // Three lines at a time: after ten frames 32 bytes are left, and the
  // eleventh frame takes 48.
  lemma ThreeLinesRunPast(s: State, newDark: nat, newBright: nat)
    requires var t := Scroll(true, 48); Ready(t, s, newDark, newBright)
    requires newDark < PAGES && newBright < PAGES && s.inTransition
    ensures var t := Scroll(true, 48);
      && Frames(t, s, newDark, newBright, 10).Some? && Frames(t, s, newDark, newBright, 10).value.inTransition
      && Frames(t, s, newDark, newBright, 11).None?
      && forall k: nat :: !Ended(t, s, newDark, newBright, k)
  {
    EndsIff(Scroll(true, 48), s, newDark, newBright);
    hide Frames, Ready;
  }

  // ---------- which pages are composed on ----------

  // Frame k + 1 is not composed on a page being shown at that moment.
  ghost predicate Unseen(t: Scroll, s: State, newDark: nat, newBright: nat, k: nat)
    requires newDark < PAGES && newBright < PAGES
  {
    var f, next := Frames(t, s, newDark, newBright, k), Frames(t, s, newDark, newBright, k + 1);
    next.None? ||
      (f.Some? && next.value.bright == next.value.dark + 1
       && next.value.dark !in {Pair(f.value.dark), Pair(f.value.bright)})
  }

  lemma LaterUnseen(t: Scroll, s: State, newDark: nat, newBright: nat, k: nat)
    requires Primed(t, s, newDark, newBright) && newDark < PAGES && newBright < PAGES && k > 0
    ensures Unseen(t, s, newDark, newBright, k)
  {
    var before, f := Frames(t, s, newDark, newBright, k - 1), Frames(t, s, newDark, newBright, k);
    if f.Some? {
      var c := Composite(before.value.free, newDark, newBright);
      CompositeFresh(before.value.free, newDark, newBright);
      EvenPair(c, c);
    }
    hide Composite, Render, Taken, Primed;
  }

  // No frame is composed on a page being shown if and only if the first is not.
  lemma NeverShownIff(t: Scroll, s: State, newDark: nat, newBright: nat)
    requires Primed(t, s, newDark, newBright) && newDark < PAGES && newBright < PAGES
    ensures (forall k: nat :: Unseen(t, s, newDark, newBright, k)) <==> NextHidden(s, newDark, newBright)
  {
    forall k: nat | k > 0 ensures Unseen(t, s, newDark, newBright, k) {
      LaterUnseen(t, s, newDark, newBright, k);
    }
    assert Frames(t, s, newDark, newBright, 0) == Some(s);
    assert Frames(t, s, newDark, newBright, 1) == Some(Frame(t, s, newDark, newBright));
    assert Unseen(t, s, newDark, newBright, 0) <==> NextHidden(s, newDark, newBright);
    hide Unseen;
    assert (forall k: nat :: Unseen(t, s, newDark, newBright, k)) ==> Unseen(t, s, newDark, newBright, 0);
  }

  // It happens: the allocator is about to hand out the very pair on the screen.
  lemma FirstCompositeSeen(pages: seq<Page>)
    requires |pages| == PAGES
    ensures var t, s := Scroll(true, 64), State(pages, 0, 0, 1, 0, 0, true);
      Primed(t, s, 2, 3) && !NextHidden(s, 2, 3) && !Unseen(t, s, 2, 3, 0)
  {
    var t, s := Scroll(true, 64), State(pages, 0, 0, 1, 0, 0, true);
    assert Composite(0, 2, 3) == 0;
    assert Frames(t, s, 2, 3, 0) == Some(s) && Frames(t, s, 2, 3, 1) == Some(Frame(t, s, 2, 3));
    hide Render, Composite;
  }

  // ---------- what is shown at the end ----------

  // How far a scroll down has come when its end test is met.
  function DownRows(t: Scroll): (rows: nat)
    requires t.Valid() && !t.up
    ensures rows <= PAGE_SIZE
    ensures AtEnd(t, PtrAt(t, rows)) && !AtEnd(t, PtrAt(t, rows - t.arg))
  {
    var left := PAGE_SIZE % t.arg;
    assert 0 <= left < t.arg;
    PAGE_SIZE - left
  }

  ghost predicate ShowsNew(t: Scroll)
    requires t.Valid()
  {
    forall old_: Page, new_: Page :: Scrolled(t, old_, new_, FinalRows(t)) == new_
  }

  // A scroll that ends shows exactly the new picture then if its step divides
  // the page; a scroll down with another step leaves old rows on the screen.
  lemma ShowsNewIff(t: Scroll)
    requires t.Valid() && (t.up ==> PAGE_SIZE % t.arg == 0)
    ensures ShowsNew(t) <==> PAGE_SIZE % t.arg == 0
  {
    if PAGE_SIZE % t.arg == 0 {
      forall old_: Page, new_: Page ensures Scrolled(t, old_, new_, FinalRows(t)) == new_ {
        assert new_[0..] == new_ && new_[..PAGE_SIZE] == new_;
      }
    } else {
      var ones: Page, zeros: Page := seq(PAGE_SIZE, _ => 1), seq(PAGE_SIZE, _ => 0);
      assert Scrolled(t, ones, zeros, FinalRows(t))[PAGE_SIZE - 1] == 1;
    }
  }
}
