/** Mappings that own their frames: how `allocate_and_map` lays out 4 KB and 2 MB
    frames, and what `Mapping::write_at` stores where. */
module BackedRegions {
  import opened Common
  import opened Paging
  import opened TableTree
  import opened AddressSpaces
  import opened PageMapping
  import opened PageUnmapping
  import opened LargeRegions

  /** A physical frame: start address and size in bytes. */
  datatype Frame = Frame(addr: nat, size: nat)

  predicate IsFrameSize(size: nat) {
    size == PAGE_SIZE || size == HUGE_PAGE_SIZE
  }

  function Total(frames: seq<Frame>): nat {
    if frames == [] then 0 else frames[0].size + Total(frames[1..])
  }

  /** Physical address of byte `o` of a list of frames laid end to end. */
  function ByteAt(frames: seq<Frame>, o: nat): nat
    requires o < Total(frames)
  {
    if o < frames[0].size then frames[0].addr + o else ByteAt(frames[1..], o - frames[0].size)
  }

  /** Frames of one size. */
  function Sized(addrs: seq<nat>, size: nat): (frames: seq<Frame>)
    ensures |frames| == |addrs| && forall i :: 0 <= i < |addrs| ==> frames[i] == Frame(addrs[i], size)
  {
    seq(|addrs|, i requires 0 <= i < |addrs| => Frame(addrs[i], size))
  }

  lemma {:induction false} TotalSized(addrs: seq<nat>, size: nat)
    ensures Total(Sized(addrs, size)) == |addrs| * size
  {
    if addrs != [] {
      assert Sized(addrs, size)[1..] == Sized(addrs[1..], size);
      TotalSized(addrs[1..], size);
    }
  }

  lemma {:induction false} ByteAtSized(addrs: seq<nat>, size: nat, o: nat)
    requires o < |addrs| * size && IsFrameSize(size)
    ensures o / size < |addrs| && o < Total(Sized(addrs, size))
    ensures ByteAt(Sized(addrs, size), o) == addrs[o / size] + o % size
  {
    TotalSized(addrs, size);
    assert Sized(addrs, size)[1..] == Sized(addrs[1..], size);
    DivStep(o, size);
    if o >= size { ByteAtSized(addrs[1..], size, o - size); }
  }

  lemma DivStep(o: nat, size: nat)
    requires IsFrameSize(size)
    ensures o >= size ==> o / size == (o - size) / size + 1 && o % size == (o - size) % size
    ensures o < size ==> o / size == 0 && o % size == o
  {
    if size == PAGE_SIZE {
      assert o >= PAGE_SIZE ==> o / PAGE_SIZE == (o - PAGE_SIZE) / PAGE_SIZE + 1;
    } else {
      assert o >= HUGE_PAGE_SIZE ==> o / HUGE_PAGE_SIZE == (o - HUGE_PAGE_SIZE) / HUGE_PAGE_SIZE + 1;
    }
  }

  lemma {:induction false} ByteAtConcat(x: seq<Frame>, y: seq<Frame>, o: nat)
    requires o < Total(x) + Total(y)
    ensures Total(x + y) == Total(x) + Total(y)
    ensures ByteAt(x + y, o) == if o < Total(x) then ByteAt(x, o) else ByteAt(y, o - Total(x))
  {
    if x == [] {
      assert x + y == y;
    } else {
      assert (x + y)[1..] == x[1..] + y;
      TotalConcat(x[1..], y);
      if o >= x[0].size { ByteAtConcat(x[1..], y, o - x[0].size); }
    }
  }

  lemma {:induction false} TotalConcat(x: seq<Frame>, y: seq<Frame>)
    ensures Total(x + y) == Total(x) + Total(y)
  {
    if x == [] {
      assert x + y == y;
    } else {
      assert (x + y)[1..] == x[1..] + y;
      TotalConcat(x[1..], y);
    }
  }

  // ---------------------------------------------------------------------------
  // The layout
  // ---------------------------------------------------------------------------

  /** Byte sizes of the 4 KB head, the 2 MB middle and the 4 KB tail. */
  datatype Layout = Layout(head: nat, middle: nat, tail: nat)

  /** The next 2 MB boundary at or above, and at or below, an address. */
  function Up(x: nat): (r: nat)
    ensures r % HUGE_PAGE_SIZE == 0 && x <= r < x + HUGE_PAGE_SIZE
  {
    (x + HUGE_PAGE_SIZE - 1) / HUGE_PAGE_SIZE * HUGE_PAGE_SIZE
  }

  function Down(x: nat): (r: nat)
    ensures r % HUGE_PAGE_SIZE == 0 && r <= x < r + HUGE_PAGE_SIZE
  {
    x / HUGE_PAGE_SIZE * HUGE_PAGE_SIZE
  }

  function LayoutOf(start: nat, size: nat): Layout {
    LayoutBetween(start, (size + 4095) / PAGE_SIZE * PAGE_SIZE, Up(start),
                  Down(start + (size + 4095) / PAGE_SIZE * PAGE_SIZE))
  }

  function LayoutBetween(start: nat, aligned: nat, firstHuge: nat, lastHuge: nat): Layout
    requires start <= firstHuge && lastHuge <= start + aligned
  {
    var end := start + aligned;
    var head := if firstHuge <= end && lastHuge > firstHuge then firstHuge - start else aligned;
    var middle := if head < aligned then lastHuge - firstHuge else 0;
    Layout(head, middle, aligned - head - middle)
  }

  /** Boundaries are also page boundaries. */
  lemma BoundaryPages(x: nat)
    requires x % HUGE_PAGE_SIZE == 0
    ensures x % PAGE_SIZE == 0
  {
  }

  lemma PageDifference(x: nat, y: nat)
    requires x % PAGE_SIZE == 0 && y % PAGE_SIZE == 0 && x <= y
    ensures (y - x) % PAGE_SIZE == 0
  {
  }

  lemma BlockDifference(x: nat, y: nat)
    requires x % HUGE_PAGE_SIZE == 0 && y % HUGE_PAGE_SIZE == 0
    ensures x <= y ==> (y - x) % HUGE_PAGE_SIZE == 0
    ensures x < y ==> x + HUGE_PAGE_SIZE <= y
  {
  }

  /** The three parts tile the range exactly; the middle is made of whole aligned
      2 MB blocks; without a middle there is no tail. */
  lemma LayoutTiles(start: nat, size: nat)
    requires start % PAGE_SIZE == 0
    ensures var l := LayoutOf(start, size);
            && l.head + l.middle + l.tail == Steps(size) * PAGE_SIZE
            && l.head % PAGE_SIZE == 0 && l.middle % HUGE_PAGE_SIZE == 0 && l.tail % PAGE_SIZE == 0
            && (l.middle > 0 ==> (start + l.head) % HUGE_PAGE_SIZE == 0)
            && (l.middle == 0 ==> l.tail == 0)
  {
    hide Up, Down, LayoutBetween;
    var aligned := Steps(size) * PAGE_SIZE;
    var up, down := Up(start), Down(start + aligned);
    BetweenIs(start, aligned, up, down);
    WholePages(start, Steps(size));
    BoundaryPages(up);
    BoundaryPages(down);
    PageDifference(start, up);
    PageDifference(down, start + aligned);
    BlockDifference(up, down);
  }

  lemma BetweenIs(start: nat, aligned: nat, up: nat, down: nat)
    requires start <= up && down <= start + aligned
    ensures LayoutBetween(start, aligned, up, down) ==
            if up < down then Layout(up - start, down - up, start + aligned - down) else Layout(aligned, 0, 0)
  {
  }

  lemma WholePages(start: nat, n: nat)
    requires start % PAGE_SIZE == 0
    ensures n * PAGE_SIZE % PAGE_SIZE == 0 && (start + n * PAGE_SIZE) % PAGE_SIZE == 0
  {
  }

  /** The middle holds every aligned 2 MB block that fits in the range. */
  lemma LayoutMaximal(start: nat, size: nat, b: nat)
    requires start % PAGE_SIZE == 0 && b % HUGE_PAGE_SIZE == 0
    requires start <= b && b + HUGE_PAGE_SIZE <= start + Steps(size) * PAGE_SIZE
    ensures var l := LayoutOf(start, size); start + l.head <= b && b + HUGE_PAGE_SIZE <= start + l.head + l.middle
  {
    hide Up, Down, LayoutBetween;
    var up, down := Up(start), Down(start + Steps(size) * PAGE_SIZE);
    BetweenIs(start, Steps(size) * PAGE_SIZE, up, down);
    BlockDifference(b, up);
    BlockDifference(down, b + HUGE_PAGE_SIZE);
  }

  // ---------------------------------------------------------------------------
  // Allocating the frames
  // ---------------------------------------------------------------------------

  /** The 4 KB frames a frame is made of. */
  function Pages(f: Frame): set<nat> {
    set i: nat | i < f.size / PAGE_SIZE :: f.addr + i * PAGE_SIZE
  }

  ghost function AllPages(frames: seq<Frame>): set<nat> {
    set i: nat, x: nat | i < |frames| && x in Pages(frames[i]) :: x
  }

  /** No two frames overlap, and each is aligned to its size. */
  ghost predicate Apart(frames: seq<Frame>) {
    && (forall i :: 0 <= i < |frames| ==> IsFrameSize(frames[i].size) && frames[i].addr % frames[i].size == 0)
    && (forall i, j :: 0 <= i < j < |frames| ==> Pages(frames[i]) !! Pages(frames[j]))
  }

  /** Frames just taken from the allocator. */
  ghost predicate Taken(was: set<nat>, now: set<nat>, frames: seq<Frame>) {
    Apart(frames) && AllPages(frames) !! was && now == was + AllPages(frames)
  }

  lemma TakenOne(was: set<nat>, now: set<nat>, frames: seq<Frame>, f: Frame)
    requires Taken(was, now, frames) && IsFrameSize(f.size) && f.addr % f.size == 0 && Pages(f) !! now
    ensures Taken(was, now + Pages(f), frames + [f])
  {
    var all := frames + [f];
    forall x
      ensures x in AllPages(all) <==> x in AllPages(frames) || x in Pages(f)
    {
      if x in AllPages(all) {
        var i :| 0 <= i < |all| && x in Pages(all[i]);
        if i < |frames| { assert x in Pages(frames[i]); }
      }
      if x in AllPages(frames) {
        var i :| 0 <= i < |frames| && x in Pages(frames[i]);
        assert x in Pages(all[i]);
      }
      if x in Pages(f) { assert x in Pages(all[|frames|]); }
    }
    forall i, j | 0 <= i < j < |all|
      ensures Pages(all[i]) !! Pages(all[j])
    {
      if j == |frames| {
        assert Pages(frames[i]) <= AllPages(frames);
      }
    }
  }

  lemma SmallPages(f: nat)
    ensures Pages(Frame(f, PAGE_SIZE)) == {f}
  {
    assert f + 0 * PAGE_SIZE in Pages(Frame(f, PAGE_SIZE));
  }

  lemma LargeFrameExists(used: set<nat>)
    ensures exists f: nat :: f != 0 && f % HUGE_PAGE_SIZE == 0 && Pages(Frame(f, HUGE_PAGE_SIZE)) !! used
  {
    var b := UpperBound(used);
    var f := b * HUGE_PAGE_SIZE + HUGE_PAGE_SIZE;
    assert f % HUGE_PAGE_SIZE == 0;
    assert Pages(Frame(f, HUGE_PAGE_SIZE)) !! used;
  }

  /** `allocate_frame` or `allocate_physical` for a 2 MB block, `n` times. */
  method Allocate(a: AddressSpace, n: nat, large: bool, ghost was: set<nat>, ghost before: seq<Frame>)
    returns (addrs: seq<nat>)
    requires Taken(was, a.used, before)
    modifies a`used
    ensures |addrs| == n && Taken(was, a.used, before + Sized(addrs, if large then HUGE_PAGE_SIZE else PAGE_SIZE))
    ensures old(a.used) <= a.used
  {
    hide Taken;
    addrs := [];
    ghost var size := if large then HUGE_PAGE_SIZE else PAGE_SIZE;
    assert before + Sized(addrs, size) == before;
    while |addrs| < n
      invariant |addrs| <= n
      invariant Taken(was, a.used, before + Sized(addrs, size)) && old(a.used) <= a.used
    {
      var f: nat;
      ghost var used, frames := a.used, before + Sized(addrs, size);
      if large {
        LargeFrameExists(a.used);
        f :| f != 0 && f % HUGE_PAGE_SIZE == 0 && Pages(Frame(f, HUGE_PAGE_SIZE)) !! a.used;
        a.used := a.used + Pages(Frame(f, HUGE_PAGE_SIZE));
      } else {
        f := a.AllocateFrame();
        SmallPages(f);
      }
      TakenOne(was, used, frames, Frame(f, size));
      assert frames + [Frame(f, size)] == before + Sized(addrs + [f], size);
      addrs := addrs + [f];
    }
  }

  // ---------------------------------------------------------------------------
  // allocate_and_map
  // ---------------------------------------------------------------------------

  function FramesOf(heads: seq<nat>, blocks: seq<nat>, tails: seq<nat>): seq<Frame> {
    Sized(heads, PAGE_SIZE) + Sized(blocks, HUGE_PAGE_SIZE) + Sized(tails, PAGE_SIZE)
  }

  /** The flat map with a region laid out over heads, blocks and tails. */
  ghost function PlaceAll(flat: FlatMap, first: nat, heads: seq<nat>, blocks: seq<nat>, tails: seq<nat>,
                          fl: Flags): FlatMap {
    PlaceSmall(PlaceLarge(PlaceSmall(flat, first, heads, fl), first + |heads|, blocks, fl.(huge := true)),
               first + |heads| + 512 * |blocks|, tails, fl)
  }

  /** Page count of a layout. */
  function Span(heads: seq<nat>, blocks: seq<nat>, tails: seq<nat>): nat {
    |heads| + 512 * |blocks| + |tails|
  }

  /** Pages outside the region keep their translation; each page inside goes to its
      place in the list of frames, with the requested flags. */
  lemma PlacedAt(flat: FlatMap, first: nat, heads: seq<nat>, blocks: seq<nat>, tails: seq<nat>, fl: Flags, q: Page)
    requires q in flat
    ensures var to := PlaceAll(flat, first, heads, blocks, tails, fl);
            var n := Number(q) - first;
            && q in to
            && (!InRun(q, first, Span(heads, blocks, tails)) ==> to[q] == flat[q])
            && (0 <= n < |heads| ==> to[q] == Some(Leaf(Entry(heads[n], fl), 1)))
            && (|heads| <= n < |heads| + 512 * |blocks| ==>
                  to[q] == Some(Leaf(Entry(blocks[(n - |heads|) / 512], fl.(huge := true)), 2)))
            && (|heads| + 512 * |blocks| <= n < Span(heads, blocks, tails) ==>
                  to[q] == Some(Leaf(Entry(tails[n - |heads| - 512 * |blocks|], fl), 1)))
  {
    hide Number;
  }

  /** Every byte of the region translates to its place in the list of frames. */
  lemma BytesFound(root: nat, s: Snapshot, flat: FlatMap, base: nat, heads: seq<nat>, blocks: seq<nat>, tails: seq<nat>,
                   fl: Flags, o: nat)
    requires WellFormed(root, s.mem, s.tabs) && (forall q :: q in flat <==> Good(q)) && base % PAGE_SIZE == 0
    requires Flat(root, s.mem, s.tabs) == PlaceAll(flat, NumberAt(base), heads, blocks, tails, fl)
    requires PageRun(NumberAt(base), Span(heads, blocks, tails)) && o < Span(heads, blocks, tails) * PAGE_SIZE
    requires |blocks| > 0 ==> (base + |heads| * PAGE_SIZE) % HUGE_PAGE_SIZE == 0
    requires forall b <- blocks :: b % HUGE_PAGE_SIZE == 0
    ensures o < Total(FramesOf(heads, blocks, tails))
    ensures PhysicalOf(HwWalk(root, s.mem, base + o)) == Some(ByteAt(FramesOf(heads, blocks, tails), o))
  {
    hide PageAt, PageOf, Number, Linked, Rooted, Widened, LeafOf, HwWalk, PlaceAll, Total, ByteAt, LeafAddress;
    BytePlace(base, o);
    var q := PageAt(base + o);
    assert !InWindow(q) by { PageOfNumber(q); }
    HwMatchesLeaf(root, s.mem, s.tabs, base + o);
    PlacedAt(flat, NumberAt(base), heads, blocks, tails, fl, q);
    ByteInFrames(heads, blocks, tails, o);
    LeafByte(base, heads, blocks, tails, fl, o, Flat(root, s.mem, s.tabs)[q]);
  }

  /** The address a leaf of the layout gives a byte is its place in its frame. */
  lemma LeafByte(base: nat, heads: seq<nat>, blocks: seq<nat>, tails: seq<nat>, fl: Flags, o: nat, leaf: Option<Leaf>)
    requires o < Span(heads, blocks, tails) * PAGE_SIZE && (base + o) % PAGE_SIZE == o % PAGE_SIZE
    requires |blocks| > 0 ==> (base + |heads| * PAGE_SIZE) % HUGE_PAGE_SIZE == 0
    requires forall b <- blocks :: b % HUGE_PAGE_SIZE == 0
    requires var n := o / PAGE_SIZE;
             leaf == Some(if n < |heads| then Leaf(Entry(heads[n], fl), 1)
                          else if n < |heads| + 512 * |blocks|
                          then Leaf(Entry(blocks[(n - |heads|) / 512], fl.(huge := true)), 2)
                          else Leaf(Entry(tails[n - |heads| - 512 * |blocks|], fl), 1))
    ensures var n := o / PAGE_SIZE;
            LeafAddress(leaf.value.entry, leaf.value.level, base + o) ==
              if n < |heads| then heads[n] + o % PAGE_SIZE
              else if n < |heads| + 512 * |blocks| then
                (var m := o - |heads| * PAGE_SIZE; blocks[(n - |heads|) / 512] + m % HUGE_PAGE_SIZE)
              else tails[n - |heads| - 512 * |blocks|] + o % PAGE_SIZE
  {
    var n := o / PAGE_SIZE;
    if |heads| <= n < |heads| + 512 * |blocks| {
      hide LeafAddress;
      BlockOffset(base, |heads|, o);
      var b := blocks[(n - |heads|) / 512];
      assert b in blocks;
      BlockAddress(Entry(b, fl.(huge := true)), base + o);
    }
  }

  /** And the processor grants exactly the flags asked for. */
  lemma BytesGranted(root: nat, s: Snapshot, flat: FlatMap, base: nat, heads: seq<nat>, blocks: seq<nat>,
                     tails: seq<nat>, fl: Flags, o: nat)
    requires WellFormed(root, s.mem, s.tabs) && Widened(root, s.mem, s.tabs)
    requires (forall q :: q in flat <==> Good(q)) && base % PAGE_SIZE == 0
    requires Flat(root, s.mem, s.tabs) == PlaceAll(flat, NumberAt(base), heads, blocks, tails, fl)
    requires PageRun(NumberAt(base), Span(heads, blocks, tails)) && o < Span(heads, blocks, tails) * PAGE_SIZE
    ensures var walk := HwWalk(root, s.mem, base + o);
            walk.Mapped? && walk.user == fl.user && walk.writable == fl.writable && walk.noExec == fl.noExec
  {
    hide PageAt, PageOf, Number, Linked, Rooted, Widened, LeafOf, HwWalk, PlaceAll;
    BytePlace(base, o);
    var q := PageAt(base + o);
    assert !InWindow(q) by { PageOfNumber(q); }
    WalkOfLeaf(root, s.mem, s.tabs, base + o);
    PlacedAt(flat, NumberAt(base), heads, blocks, tails, fl, q);
  }

  lemma BlockAddress(e: Entry, v: nat)
    requires e.addr % HUGE_PAGE_SIZE == 0
    ensures LeafAddress(e, 2, v) == e.addr + v % HUGE_PAGE_SIZE
  {
  }

  /** The same byte, by frame and offset. */
  lemma ByteInFrames(heads: seq<nat>, blocks: seq<nat>, tails: seq<nat>, o: nat)
    requires o < Span(heads, blocks, tails) * PAGE_SIZE
    ensures o < Total(FramesOf(heads, blocks, tails))
    ensures var n := o / PAGE_SIZE;
            ByteAt(FramesOf(heads, blocks, tails), o) ==
              if n < |heads| then heads[n] + o % PAGE_SIZE
              else if n < |heads| + 512 * |blocks| then
                (var m := o - |heads| * PAGE_SIZE; blocks[(n - |heads|) / 512] + m % HUGE_PAGE_SIZE)
              else tails[n - |heads| - 512 * |blocks|] + o % PAGE_SIZE
  {
    hide Total, ByteAt;
    var x, y, z := Sized(heads, PAGE_SIZE), Sized(blocks, HUGE_PAGE_SIZE), Sized(tails, PAGE_SIZE);
    TotalSized(heads, PAGE_SIZE);
    TotalSized(blocks, HUGE_PAGE_SIZE);
    TotalSized(tails, PAGE_SIZE);
    TotalConcat(x, y);
    ByteAtConcat(x + y, z, o);
    var m, k := o - |heads| * PAGE_SIZE, o - |heads| * PAGE_SIZE - |blocks| * HUGE_PAGE_SIZE;
    if o < |heads| * PAGE_SIZE {
      ByteAtConcat(x, y, o);
      ByteAtSized(heads, PAGE_SIZE, o);
    } else if m < |blocks| * HUGE_PAGE_SIZE {
      ByteAtConcat(x, y, o);
      ByteAtSized(blocks, HUGE_PAGE_SIZE, m);
      assert m / HUGE_PAGE_SIZE == (o / PAGE_SIZE - |heads|) / 512;
    } else {
      ByteAtSized(tails, PAGE_SIZE, k);
      assert k / PAGE_SIZE == o / PAGE_SIZE - |heads| - 512 * |blocks| && k % PAGE_SIZE == o % PAGE_SIZE;
    }
  }

  /** Offsets inside a 2 MB block are counted from its aligned start. */
  lemma BlockOffset(base: nat, heads: nat, o: nat)
    ensures (base + heads * PAGE_SIZE) % HUGE_PAGE_SIZE == 0 && o >= heads * PAGE_SIZE ==>
              (base + o) % HUGE_PAGE_SIZE == (o - heads * PAGE_SIZE) % HUGE_PAGE_SIZE
  {
  }

  /** Nothing is mapped in the run. */
  ghost predicate FreshRun(flat: FlatMap, first: nat, n: nat) {
    forall q <- flat :: InRun(q, first, n) ==> flat[q] == None
  }

  lemma SubRun(first: nat, n: nat, k: nat, m: nat)
    requires PageRun(first, n) && k + m <= n
    ensures PageRun(first + k, m)
  {
  }

  lemma FreshSmall(flat: FlatMap, first: nat, n: nat, k: nat, m: nat)
    requires first + n <= PAGES && k + m <= n && forall q :: q in flat <==> Good(q)
    requires FreshRun(flat, first, n)
    ensures AllSmall(flat, first + k, m)
  {
    hide Number, PageOf;
    forall i | first + k <= i < first + k + m
      ensures flat[PageOf(i)] == None
    {
      assert InRun(PageOf(i), first, n);
    }
  }

  lemma BlockNumber(base: nat, head: nat)
    requires head % PAGE_SIZE == 0 && NumberAt(base) + head / PAGE_SIZE < PAGES
    ensures NumberAt(base + head) == NumberAt(base) + head / PAGE_SIZE
    ensures (base + head) % HUGE_PAGE_SIZE == 0 ==> NumberAt(base + head) % 512 == 0
  {
    hide Number, PageAt;
    assert head / PAGE_SIZE * PAGE_SIZE == head;
    StepNumber(base, head / PAGE_SIZE);
    if (base + head) % HUGE_PAGE_SIZE == 0 { AlignedNumber(base + head); }
  }

  lemma AlignedNumber(v: nat)
    requires v % HUGE_PAGE_SIZE == 0
    ensures NumberAt(v) % 512 == 0
  {
    var n := v / PAGE_SIZE;
    assert n % 512 == 0;
    assert NumberAt(v) == n % PAGES;
    assert n % PAGES % 512 == 0;
  }

  /** The region is laid out over its frames and only tables serving it were added. */
  ghost predicate Laid(root: nat, s: Snapshot, s': Snapshot, first: nat, heads: seq<nat>, blocks: seq<nat>,
                       tails: seq<nat>, fl: Flags)
    requires WellFormed(root, s.mem, s.tabs)
  {
    Reached(root, s, s', PlaceAll(Flat(root, s.mem, s.tabs), first, heads, blocks, tails, fl), first,
            Span(heads, blocks, tails))
  }

  lemma LaidTrans(root: nat, s: Snapshot, s1: Snapshot, s2: Snapshot, s3: Snapshot, first: nat, heads: seq<nat>,
                  blocks: seq<nat>, tails: seq<nat>, fl: Flags)
    requires WellFormed(root, s.mem, s.tabs)
    requires Reached(root, s, s1, PlaceSmall(Flat(root, s.mem, s.tabs), first, heads, fl), first, |heads|)
    requires Reached(root, s1, s2, PlaceLarge(Flat(root, s1.mem, s1.tabs), first + |heads|, blocks, fl.(huge := true)),
                     first + |heads|, 512 * |blocks|)
    requires Reached(root, s2, s3, PlaceSmall(Flat(root, s2.mem, s2.tabs), first + |heads| + 512 * |blocks|, tails, fl),
                     first + |heads| + 512 * |blocks|, |tails|)
    ensures Laid(root, s, s3, first, heads, blocks, tails, fl)
  {
    hide Grown, Widened, Linked, Rooted, LeafOf, Number, PlaceSmall, PlaceLarge;
    var f1, f2, f3 := Flat(root, s1.mem, s1.tabs), Flat(root, s2.mem, s2.tabs), Flat(root, s3.mem, s3.tabs);
    ReachedTrans(root, s, s1, s2, f1, f2, first, |heads|, 512 * |blocks|);
    ReachedTrans(root, s, s2, s3, f2, f3, first, |heads| + 512 * |blocks|, |tails|);
  }

  /** The mapping loops of `allocate_and_map`, over frames already allocated. */
  method MapFrames(a: AddressSpace, base: nat, heads: seq<nat>, blocks: seq<nat>, tails: seq<nat>, fl: Flags)
    requires a.Valid() && fl.present && !fl.huge && base % PAGE_SIZE == 0
    requires PageRun(NumberAt(base), Span(heads, blocks, tails))
    requires FreshRun(a.Translations(), NumberAt(base), Span(heads, blocks, tails))
    requires blocks != [] ==> (base + |heads| * PAGE_SIZE) % HUGE_PAGE_SIZE == 0
    requires blocks == [] ==> tails == []
    requires BlocksFree(a.root, a.Now(), NumberAt(base) + |heads|, 512 * |blocks|)
    modifies a
    ensures a.Valid() && Laid(a.root, old(a.Now()), a.Now(), NumberAt(base), heads, blocks, tails, fl)
  {
    hide Grown, Widened, Linked, Rooted, LeafOf, Number, PlaceSmall, PlaceLarge, PageAt, PageOf, PageRun, FreshRun,
         AllSmall, BlocksFree, Laid, FramesOf;
    ghost var s, first, n := a.Now(), NumberAt(base), Span(heads, blocks, tails);
    SubRun(first, n, 0, |heads|);
    SubRun(first, n, |heads|, 512 * |blocks|);
    SubRun(first, n, |heads| + 512 * |blocks|, |tails|);
    FreshSmall(a.Translations(), first, n, 0, |heads|);
    MapSmall(a, base, heads, fl);
    ghost var s1 := a.Now();
    if blocks == [] {
      NoMore(a.root, s1, first + |heads|, fl);
      LaidTrans(a.root, s, s1, s1, s1, first, heads, blocks, tails, fl);
      return;
    }
    BlockNumber(base, |heads| * PAGE_SIZE);
    HeadsOff(a.root, s, s1, first, heads, 512 * |blocks|, fl);
    MapLarge(a, base + |heads| * PAGE_SIZE, blocks, fl);
    ghost var s2 := a.Now();
    var tailBase := base + |heads| * PAGE_SIZE + |blocks| * HUGE_PAGE_SIZE;
    if tails == [] {
      NoMore(a.root, s2, first + |heads| + 512 * |blocks|, fl);
      LaidTrans(a.root, s, s1, s2, s2, first, heads, blocks, tails, fl);
      return;
    }
    TailNumber(base, |heads|, |blocks|);
    TailFresh(a.root, s, s1, s2, first, heads, blocks, tails, fl);
    MapSmall(a, tailBase, tails, fl);
    LaidTrans(a.root, s, s1, s2, a.Now(), first, heads, blocks, tails, fl);
  }

  lemma NoMore(root: nat, s: Snapshot, first: nat, fl: Flags)
    requires WellFormed(root, s.mem, s.tabs)
    ensures var flat := Flat(root, s.mem, s.tabs);
            && Reached(root, s, s, PlaceLarge(flat, first, [], fl.(huge := true)), first, 0)
            && Reached(root, s, s, PlaceSmall(flat, first, [], fl), first, 0)
  {
    hide Grown, Widened, Linked, Rooted, LeafOf, Number;
    var flat := Flat(root, s.mem, s.tabs);
    assert PlaceLarge(flat, first, [], fl.(huge := true)) == flat;
    assert PlaceSmall(flat, first, [], fl) == flat;
    ReachedRefl(root, s, flat, first, 0);
  }

  lemma TailNumber(base: nat, heads: nat, blocks: nat)
    requires NumberAt(base) + heads + 512 * blocks < PAGES
    ensures NumberAt(base + heads * PAGE_SIZE + blocks * HUGE_PAGE_SIZE) == NumberAt(base) + heads + 512 * blocks
  {
    hide Number, PageAt;
    StepNumber(base, heads + 512 * blocks);
    assert (heads + 512 * blocks) * PAGE_SIZE == heads * PAGE_SIZE + blocks * HUGE_PAGE_SIZE;
  }

  /** Mapping the head leaves the blocks after it free. */
  lemma HeadsOff(root: nat, s: Snapshot, s1: Snapshot, first: nat, heads: seq<nat>, m: nat, fl: Flags)
    requires WellFormed(root, s.mem, s.tabs) && BlocksFree(root, s, first + |heads|, m) && (first + |heads|) % 512 == 0
    requires Reached(root, s, s1, PlaceSmall(Flat(root, s.mem, s.tabs), first, heads, fl), first, |heads|)
    ensures BlocksFree(root, s1, first + |heads|, m)
  {
    hide Grown, Widened, Linked, Rooted, LeafOf, Number;
    BlocksStillFree(root, s, s1, PlaceSmall(Flat(root, s.mem, s.tabs), first, heads, fl), first, |heads|,
                    first + |heads|, m);
  }

  lemma TailFresh(root: nat, s: Snapshot, s1: Snapshot, s2: Snapshot, first: nat, heads: seq<nat>, blocks: seq<nat>,
                  tails: seq<nat>, fl: Flags)
    requires WellFormed(root, s.mem, s.tabs) && first + Span(heads, blocks, tails) <= PAGES
    requires FreshRun(Flat(root, s.mem, s.tabs), first, Span(heads, blocks, tails))
    requires Reached(root, s, s1, PlaceSmall(Flat(root, s.mem, s.tabs), first, heads, fl), first, |heads|)
    requires Reached(root, s1, s2, PlaceLarge(Flat(root, s1.mem, s1.tabs), first + |heads|, blocks, fl.(huge := true)),
                     first + |heads|, 512 * |blocks|)
    ensures AllSmall(Flat(root, s2.mem, s2.tabs), first + |heads| + 512 * |blocks|, |tails|)
  {
    hide Grown, Widened, Linked, Rooted, LeafOf, Number;
    FreshSmall(Flat(root, s2.mem, s2.tabs), first + |heads| + 512 * |blocks|, |tails|, 0, |tails|);
  }

  /** Every byte of the region is found, by the processor, in its place of the frames. */
  ghost predicate Backed(root: nat, mem: Memory, base: nat, frames: seq<Frame>) {
    forall o: nat {:trigger ByteAt(frames, o)} :: o < Total(frames) ==>
      PhysicalOf(HwWalk(root, mem, base + o)) == Some(ByteAt(frames, o))
  }

  /** Every byte of a region is mapped with the asked rights. */
  ghost predicate Granted(root: nat, mem: Memory, base: nat, size: nat, options: Options) {
    forall v: nat :: base <= v < base + size ==>
      var walk := HwWalk(root, mem, v);
      && walk.Mapped? && walk.user == options.user && walk.writable == options.writable
      && walk.noExec == !options.executable
  }

  lemma LaidGranted(root: nat, s: Snapshot, s': Snapshot, base: nat, heads: seq<nat>, blocks: seq<nat>,
                    tails: seq<nat>, options: Options)
    requires WellFormed(root, s.mem, s.tabs) && Widened(root, s.mem, s.tabs) && base % PAGE_SIZE == 0
    requires Laid(root, s, s', NumberAt(base), heads, blocks, tails, options.ToFlags())
    requires PageRun(NumberAt(base), Span(heads, blocks, tails))
    requires FreshRun(Flat(root, s.mem, s.tabs), NumberAt(base), Span(heads, blocks, tails))
    ensures Granted(root, s'.mem, base, Span(heads, blocks, tails) * PAGE_SIZE, options)
    ensures ElsewhereKept(root, s.mem, s'.mem, NumberAt(base), Span(heads, blocks, tails))
  {
    hide Grown, Widened, Linked, Rooted, LeafOf, Number, PlaceAll, PageAt, PageOf, PageRun, HwWalk;
    var flat, n := Flat(root, s.mem, s.tabs), Span(heads, blocks, tails);
    forall v: nat | base <= v < base + n * PAGE_SIZE
      ensures var walk := HwWalk(root, s'.mem, v);
              && walk.Mapped? && walk.user == options.user && walk.writable == options.writable
              && walk.noExec == !options.executable
    {
      BytesGranted(root, s', flat, base, heads, blocks, tails, options.ToFlags(), v - base);
    }
    forall v: nat | !InWindow(PageAt(v)) && (!InRun(PageAt(v), NumberAt(base), n) || HwWalk(root, s.mem, v).Mapped?)
      ensures HwWalk(root, s'.mem, v) == HwWalk(root, s.mem, v)
    {
      WalkOfLeaf(root, s.mem, s.tabs, v);
      WalkOfLeaf(root, s'.mem, s'.tabs, v);
      PlacedAt(flat, NumberAt(base), heads, blocks, tails, options.ToFlags(), PageAt(v));
    }
  }

  lemma LaidBacked(root: nat, s: Snapshot, s': Snapshot, base: nat, heads: seq<nat>, blocks: seq<nat>, tails: seq<nat>,
                   fl: Flags)
    requires WellFormed(root, s.mem, s.tabs) && Laid(root, s, s', NumberAt(base), heads, blocks, tails, fl)
    requires base % PAGE_SIZE == 0
    requires PageRun(NumberAt(base), Span(heads, blocks, tails))
    requires blocks != [] ==> (base + |heads| * PAGE_SIZE) % HUGE_PAGE_SIZE == 0
    requires Apart(FramesOf(heads, blocks, tails))
    ensures Total(FramesOf(heads, blocks, tails)) == Span(heads, blocks, tails) * PAGE_SIZE
    ensures Backed(root, s'.mem, base, FramesOf(heads, blocks, tails))
  {
    hide Grown, Widened, Linked, Rooted, LeafOf, Number, PlaceAll, PageAt, PageOf, PageRun, HwWalk, Total, ByteAt;
    var frames := FramesOf(heads, blocks, tails);
    FramesTotal(heads, blocks, tails);
    forall b <- blocks
      ensures b % HUGE_PAGE_SIZE == 0
    {
      var i :| 0 <= i < |blocks| && blocks[i] == b;
      assert frames[|heads| + i] == Frame(b, HUGE_PAGE_SIZE);
    }
    forall o: nat | o < Total(frames)
      ensures PhysicalOf(HwWalk(root, s'.mem, base + o)) == Some(ByteAt(frames, o))
    {
      BytesFound(root, s', Flat(root, s.mem, s.tabs), base, heads, blocks, tails, fl, o);
    }
  }

  lemma FramesTotal(heads: seq<nat>, blocks: seq<nat>, tails: seq<nat>)
    ensures Total(FramesOf(heads, blocks, tails)) == Span(heads, blocks, tails) * PAGE_SIZE
  {
    hide Total;
    TotalSized(heads, PAGE_SIZE);
    TotalSized(blocks, HUGE_PAGE_SIZE);
    TotalSized(tails, PAGE_SIZE);
    TotalConcat(Sized(heads, PAGE_SIZE), Sized(blocks, HUGE_PAGE_SIZE));
    TotalConcat(Sized(heads, PAGE_SIZE) + Sized(blocks, HUGE_PAGE_SIZE), Sized(tails, PAGE_SIZE));
  }

  lemma LayoutCounts(start: nat, size: nat, heads: nat, blocks: nat, tails: nat)
    requires start % PAGE_SIZE == 0
    requires var l := LayoutOf(start, size);
             heads == l.head / PAGE_SIZE && blocks == l.middle / HUGE_PAGE_SIZE && tails == l.tail / PAGE_SIZE
    ensures heads + 512 * blocks + tails == Steps(size)
    ensures blocks > 0 ==> (start + heads * PAGE_SIZE) % HUGE_PAGE_SIZE == 0
    ensures blocks == 0 ==> tails == 0
  {
    hide LayoutOf;
    var l := LayoutOf(start, size);
    LayoutTiles(start, size);
    assert heads * PAGE_SIZE == l.head && blocks * HUGE_PAGE_SIZE == l.middle && tails * PAGE_SIZE == l.tail;
  }

  /** First page and length of the 2 MB part. */
  ghost function MiddleFirst(base: nat, size: nat): nat {
    NumberAt(base) + LayoutOf(base, size).head / PAGE_SIZE
  }

  ghost function MiddlePages(base: nat, size: nat): nat {
    512 * (LayoutOf(base, size).middle / HUGE_PAGE_SIZE)
  }

  /** `allocate_and_map` on a fresh region. */
  method AllocateAndMap(a: AddressSpace, base: nat, size: nat, options: Options) returns (frames: seq<Frame>)
    requires a.Valid() && base % PAGE_SIZE == 0
    requires PageRun(NumberAt(base), Steps(size)) && FreshRun(a.Translations(), NumberAt(base), Steps(size))
    requires BlocksFree(a.root, a.Now(), MiddleFirst(base, size), MiddlePages(base, size))
    modifies a
    ensures a.Valid() && Total(frames) == Steps(size) * PAGE_SIZE
    ensures Taken(old(a.used), old(a.used) + AllPages(frames), frames)
    ensures Backed(a.root, a.mem, base, frames)
    ensures exists heads, blocks, tails ::
              && frames == FramesOf(heads, blocks, tails) && Span(heads, blocks, tails) == Steps(size)
              && Laid(a.root, old(a.Now()).(used := old(a.used) + AllPages(frames)), a.Now(), NumberAt(base), heads,
                      blocks, tails, options.ToFlags())
    ensures old(Widened(a.root, a.mem, a.tabs)) ==>
              && Granted(a.root, a.mem, base, Steps(size) * PAGE_SIZE, options)
              && ElsewhereKept(a.root, old(a.mem), a.mem, NumberAt(base), Steps(size))
  {
    hide Grown, Widened, Linked, Rooted, LeafOf, Number, PageAt, PageOf, PageRun, FreshRun, BlocksFree, Laid, LayoutOf,
         Backed, Total, Apart, AllPages, Steps, Granted, ElsewhereKept, HwWalk;
    var layout := LayoutOf(base, size);
    var headPages, blockCount := layout.head / PAGE_SIZE, layout.middle / HUGE_PAGE_SIZE;
    var tailPages := layout.tail / PAGE_SIZE;
    LayoutCounts(base, size, headPages, blockCount, tailPages);
    ghost var s := a.Now();
    NoneTaken(s.used);
    var heads := Allocate(a, headPages, false, s.used, []);
    ghost var x := [] + Sized(heads, PAGE_SIZE);
    var blocks := Allocate(a, blockCount, true, s.used, x);
    ghost var y := x + Sized(blocks, HUGE_PAGE_SIZE);
    var tails := Allocate(a, tailPages, false, s.used, y);
    frames := FramesOf(heads, blocks, tails);
    assert y + Sized(tails, PAGE_SIZE) == frames;
    ghost var s1 := a.Now();
    assert a.Valid() && s1 == s.(used := s.used + AllPages(frames));
    BlocksFreeStill(a.root, s, s1, NumberAt(base) + headPages, 512 * blockCount);
    MapFrames(a, base, heads, blocks, tails, options.ToFlags());
    LaidBacked(a.root, s1, a.Now(), base, heads, blocks, tails, options.ToFlags());
    if Widened(a.root, s.mem, s.tabs) { LaidGranted(a.root, s1, a.Now(), base, heads, blocks, tails, options); }
  }

  lemma NoneTaken(used: set<nat>)
    ensures Taken(used, used, [])
  {
    assert AllPages([]) == {};
  }

  lemma BlocksFreeStill(root: nat, s: Snapshot, s1: Snapshot, first: nat, n: nat)
    requires Shape(root, s.mem, s.tabs) && BlocksFree(root, s, first, n) && s1 == s.(used := s1.used)
    ensures BlocksFree(root, s1, first, n)
  {
  }

  // ---------------------------------------------------------------------------
  // Unmapping a region again
  // ---------------------------------------------------------------------------

  /** Unmapping a region that was fresh when it was laid out gives every page its
      old translation back. */
  lemma UnmapRestores(root: nat, s: Snapshot, first: nat, heads: seq<nat>, blocks: seq<nat>, tails: seq<nat>, fl: Flags)
    requires WellFormed(root, s.mem, s.tabs)
    requires var n := Span(heads, blocks, tails); first + n <= PAGES && FreshRun(Flat(root, s.mem, s.tabs), first, n)
    requires blocks != [] ==> (first + |heads|) % 512 == 0
    ensures var flat := Flat(root, s.mem, s.tabs);
            UnmapRun(PlaceAll(flat, first, heads, blocks, tails, fl), first, Span(heads, blocks, tails)) == flat
  {
    hide Linked, Rooted, LeafOf, Number, PlaceAll, UnmapRun, FreshRun;
    var flat, n := Flat(root, s.mem, s.tabs), Span(heads, blocks, tails);
    var laid := PlaceAll(flat, first, heads, blocks, tails, fl);
    PlacedDomain(flat, first, heads, blocks, tails, fl);
    UnmapDomain(laid, first, n);
    forall q | Good(q)
      ensures UnmapRun(laid, first, n)[q] == flat[q]
    {
      UnmapRestoresAt(root, s, first, heads, blocks, tails, fl, q);
    }
  }

  lemma UnmapDomain(flat: FlatMap, first: nat, n: nat)
    ensures UnmapRun(flat, first, n).Keys == flat.Keys
  {
    hide Number;
  }

  lemma UnmapRestoresAt(root: nat, s: Snapshot, first: nat, heads: seq<nat>, blocks: seq<nat>, tails: seq<nat>,
                        fl: Flags, q: Page)
    requires WellFormed(root, s.mem, s.tabs) && Good(q)
    requires FreshRun(Flat(root, s.mem, s.tabs), first, Span(heads, blocks, tails))
    ensures var laid := PlaceAll(Flat(root, s.mem, s.tabs), first, heads, blocks, tails, fl);
            q in laid && UnmapRun(laid, first, Span(heads, blocks, tails))[q] == Flat(root, s.mem, s.tabs)[q]
  {
    hide Linked, Rooted, LeafOf, Number, PlaceAll;
    var flat, n := Flat(root, s.mem, s.tabs), Span(heads, blocks, tails);
    PlacedAt(flat, first, heads, blocks, tails, fl, q);
    if InRun(q, first, n) {
      assert Served(PlaceAll(flat, first, heads, blocks, tails, fl)[q], q, q);
    } else {
      NotHit(root, s, first, n, q);
    }
  }

  lemma PlacedDomain(flat: FlatMap, first: nat, heads: seq<nat>, blocks: seq<nat>, tails: seq<nat>, fl: Flags)
    ensures PlaceAll(flat, first, heads, blocks, tails, fl).Keys == flat.Keys
  {
    hide Number;
  }

  /** No leaf outside a fresh run serves a page inside it. */
  lemma NotHit(root: nat, s: Snapshot, first: nat, n: nat, q: Page)
    requires WellFormed(root, s.mem, s.tabs) && FreshRun(Flat(root, s.mem, s.tabs), first, n) && Good(q)
    ensures !Hit(Flat(root, s.mem, s.tabs)[q], q, first, n)
  {
    hide Linked, Rooted, Number;
    var flat := Flat(root, s.mem, s.tabs);
    forall p | Good(p) && InRun(p, first, n)
      ensures !Served(flat[q], p, q)
    {
      if Served(flat[q], p, q) { LeafShared(root, s.mem, s.tabs, p, q); }
    }
  }

  // ---------------------------------------------------------------------------
  // write_at
  // ---------------------------------------------------------------------------

  /** Offset of frame `i` in the list. */
  function StartOf(frames: seq<Frame>, i: nat): nat
    requires i <= |frames|
  {
    Total(frames[..i])
  }

  lemma StartNext(frames: seq<Frame>, i: nat)
    requires i < |frames|
    ensures StartOf(frames, i + 1) == StartOf(frames, i) + frames[i].size
  {
    assert frames[..i + 1] == frames[..i] + [frames[i]];
    TotalConcat(frames[..i], [frames[i]]);
    assert Total([frames[i]]) == frames[i].size;
  }

  lemma StartEnd(frames: seq<Frame>, i: nat)
    requires i <= |frames|
    ensures StartOf(frames, i) <= Total(frames) && (i == |frames| ==> StartOf(frames, i) == Total(frames))
  {
    assert frames == frames[..i] + frames[i..];
    TotalConcat(frames[..i], frames[i..]);
  }

  /** A byte in frame `i`. */
  lemma ByteInFrame(frames: seq<Frame>, i: nat, d: nat)
    requires i < |frames| && d < frames[i].size
    ensures StartOf(frames, i) + d < Total(frames) && ByteAt(frames, StartOf(frames, i) + d) == frames[i].addr + d
  {
    hide Total, ByteAt;
    assert frames == frames[..i] + frames[i..];
    TotalConcat(frames[..i], frames[i..]);
    FirstFrame(frames[i..], d);
    ByteAtConcat(frames[..i], frames[i..], StartOf(frames, i) + d);
  }

  lemma FirstFrame(frames: seq<Frame>, d: nat)
    requires frames != [] && d < frames[0].size
    ensures d < Total(frames) && ByteAt(frames, d) == frames[0].addr + d
  {
  }

  lemma {:induction false} Locate(frames: seq<Frame>, o: nat) returns (i: nat)
    requires o < Total(frames)
    ensures i < |frames| && StartOf(frames, i) <= o < StartOf(frames, i) + frames[i].size
  {
    i := 0;
    assert StartOf(frames, 0) == 0;
    while true
      invariant i <= |frames| && StartOf(frames, i) <= o
      decreases |frames| - i
    {
      StartEnd(frames, i);
      if o < StartOf(frames, i) + frames[i].size { return; }
      StartNext(frames, i);
      i := i + 1;
    }
  }

  /** The 4 KB page of a byte belongs to its frame. */
  lemma PageOfByte(f: Frame, d: nat)
    requires IsFrameSize(f.size) && f.addr % f.size == 0 && d < f.size
    ensures (f.addr + d) / PAGE_SIZE * PAGE_SIZE in Pages(f)
  {
    assert f.addr % PAGE_SIZE == 0;
    var i := d / PAGE_SIZE;
    assert (f.addr + d) / PAGE_SIZE * PAGE_SIZE == f.addr + i * PAGE_SIZE;
    assert i < f.size / PAGE_SIZE;
  }

  /** Different offsets are different physical bytes. */
  lemma ByteInjective(frames: seq<Frame>, o: nat, o': nat)
    requires Apart(frames) && o < o' < Total(frames)
    ensures ByteAt(frames, o) != ByteAt(frames, o')
  {
    hide Total, ByteAt, Pages;
    var i := Locate(frames, o);
    var i' := Locate(frames, o');
    ByteInFrame(frames, i, o - StartOf(frames, i));
    ByteInFrame(frames, i', o' - StartOf(frames, i'));
    PageOfByte(frames[i], o - StartOf(frames, i));
    PageOfByte(frames[i'], o' - StartOf(frames, i'));
  }

  /** Byte `i` of the data, for the physical address it belongs at. */
  ghost predicate Lands(frames: seq<Frame>, offset: nat, i: nat, x: nat) {
    offset + i < Total(frames) && ByteAt(frames, offset + i) == x
  }

  /** Memory after the first `n` bytes of the data are stored. */
  ghost predicate Stored(ram: seq<Byte>, was: seq<Byte>, frames: seq<Frame>, offset: nat, data: seq<Byte>, n: nat)
    requires |ram| == |was| && n <= |data|
  {
    && (forall i, x :: 0 <= i < n && 0 <= x < |ram| && Lands(frames, offset, i, x) ==> ram[x] == data[i])
    && (forall x :: 0 <= x < |ram| && (forall i :: 0 <= i < n ==> !Lands(frames, offset, i, x)) ==> ram[x] == was[x])
  }

  /** `copy_nonoverlapping` into memory. */
  method Copy(ram: array<Byte>, dst: nat, data: seq<Byte>)
    requires dst + |data| <= ram.Length
    modifies ram
    ensures ram[..] == old(ram[..])[..dst] + data + old(ram[..])[dst + |data|..]
  {
    var i := 0;
    while i < |data|
      invariant 0 <= i <= |data|
      invariant ram[..] == old(ram[..])[..dst] + data[..i] + old(ram[..])[dst + i..]
    {
      ram[dst + i] := data[i];
      i := i + 1;
    }
  }

  /** Copying the part of the data that falls in frame `idx`. */
  lemma CopyStored(ram: seq<Byte>, ram': seq<Byte>, was: seq<Byte>, frames: seq<Frame>, offset: nat, data: seq<Byte>,
                   n: nat, idx: nat, c: nat)
    requires |ram| == |was| && n + c <= |data| && Apart(frames) && Stored(ram, was, frames, offset, data, n)
    requires idx < |frames|
    requires StartOf(frames, idx) <= offset + n && offset + n + c <= StartOf(frames, idx) + frames[idx].size
    requires var dst := frames[idx].addr + (offset + n - StartOf(frames, idx));
             dst + c <= |ram| && ram' == ram[..dst] + data[n..n + c] + ram[dst + c..]
    ensures Stored(ram', was, frames, offset, data, n + c)
  {
    hide Total, ByteAt, Pages;
    var dst := frames[idx].addr + (offset + n - StartOf(frames, idx));
    forall i, x | 0 <= i < n + c && 0 <= x < |ram| && Lands(frames, offset, i, x)
      ensures ram'[x] == data[i]
    {
      if dst <= x < dst + c {
        var j := n + (x - dst);
        ByteInFrame(frames, idx, offset + j - StartOf(frames, idx));
        if i != j { ByteInjective(frames, offset + (if i < j then i else j), offset + (if i < j then j else i)); }
      } else if i >= n {
        ByteInFrame(frames, idx, offset + i - StartOf(frames, idx));
      }
    }
    forall x | 0 <= x < |ram| && (forall i :: 0 <= i < n + c ==> !Lands(frames, offset, i, x))
      ensures ram'[x] == was[x]
    {
      if dst <= x < dst + c {
        ByteInFrame(frames, idx, offset + n + (x - dst) - StartOf(frames, idx));
        var landed := Lands(frames, offset, n + (x - dst), x);
      }
    }
  }

  /** `Mapping::write_at`: find the frame of the offset, then copy frame by frame. */
  method WriteAt(ram: array<Byte>, frames: seq<Frame>, offset: nat, data: seq<Byte>)
    requires Apart(frames) && forall f <- frames :: f.addr + f.size <= ram.Length
    modifies ram
    ensures Stored(ram[..], old(ram[..]), frames, offset, data, |data|)
  {
    hide Apart, Stored, Total, ByteAt;
    var idx, frameStart := 0, 0;
    assert StartOf(frames, 0) == 0 by { EmptyStart(frames); }
    while idx < |frames| && frameStart + frames[idx].size <= offset
      invariant 0 <= idx <= |frames| && frameStart == StartOf(frames, idx) <= offset
      invariant ram[..] == old(ram[..])
    {
      StartNext(frames, idx);
      frameStart := frameStart + frames[idx].size;
      idx := idx + 1;
    }
    var done := 0;
    NextSize(frames, idx);
    NothingStored(ram[..], frames, offset, data);
    while done < |data| && idx < |frames|
      invariant 0 <= done <= |data| && 0 <= idx <= |frames| && frameStart == StartOf(frames, idx)
      invariant done < |data| ==> frameStart <= offset + done
      invariant done < |data| && idx < |frames| ==> offset + done < frameStart + frames[idx].size
      invariant Stored(ram[..], old(ram[..]), frames, offset, data, done)
      decreases |frames| - idx
    {
      var inFrame := offset + done - frameStart;
      var c := if frames[idx].size - inFrame < |data| - done then frames[idx].size - inFrame else |data| - done;
      ghost var was := ram[..];
      assert frames[idx] in frames;
      Copy(ram, frames[idx].addr + inFrame, data[done..done + c]);
      CopyStored(was, ram[..], old(ram[..]), frames, offset, data, done, idx, c);
      done := done + c;
      StartNext(frames, idx);
      frameStart := frameStart + frames[idx].size;
      idx := idx + 1;
      NextSize(frames, idx);
    }
    RestOutside(ram[..], old(ram[..]), frames, offset, data, done, idx);
  }

  lemma EmptyStart(frames: seq<Frame>)
    ensures StartOf(frames, 0) == 0
  {
  }

  lemma NextSize(frames: seq<Frame>, idx: nat)
    requires Apart(frames)
    ensures idx < |frames| ==> frames[idx].size > 0
  {
  }

  lemma NothingStored(ram: seq<Byte>, frames: seq<Frame>, offset: nat, data: seq<Byte>)
    ensures Stored(ram, ram, frames, offset, data, 0)
  {
  }

  /** Data that reaches past the end of the frames lands nowhere. */
  lemma RestOutside(ram: seq<Byte>, was: seq<Byte>, frames: seq<Frame>, offset: nat, data: seq<Byte>, n: nat, idx: nat)
    requires |ram| == |was| && n <= |data| && idx <= |frames| && Stored(ram, was, frames, offset, data, n)
    requires n == |data| || (idx == |frames| && StartOf(frames, idx) <= offset + n)
    ensures Stored(ram, was, frames, offset, data, |data|)
  {
    hide ByteAt, Total;
    StartEnd(frames, idx);
    assert forall i, x :: n <= i < |data| ==> !Lands(frames, offset, i, x);
  }
}
