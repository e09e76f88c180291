/** Demand-paged heap and stack of a process (`memory/demand_paging.rs`,
    `memory/mapping.rs`, `process/mod.rs`). */
module DemandPaging {
  import opened Common
  import opened Paging
  import opened TableTree
  import opened AddressSpaces
  import opened PageMapping
  import opened PageUnmapping
  import opened Conservation

  const HEAP_BASE: nat := 0x1_0000_0000
  const HEAP_MAX_SIZE: nat := 0x100_0000_0000
  const STACK_BASE: nat := 0x7fff_fef0_0000
  const STACK_MAX_SIZE: nat := 0x100_0000
  const BUFFER_BASE: nat := 0x100_0000_0000
  const BUFFER_MAX_SIZE: nat := 0x1_0000_0000

  /** First page numbers of the regions, and the length of the stack. */
  const HEAP_FIRST: nat := 0x10_0000
  const STACK_FIRST: nat := 0x7_FFFF_EF00
  const STACK_PAGES: nat := 0x1000

  lemma NumberOfAddress(v: nat)
    requires v < 0x1_0000_0000_0000
    ensures NumberAt(v) == v / PAGE_SIZE
  {
    assert v / PAGE_SIZE < PAGES;
  }

  lemma UserNumbers(first: nat, n: nat)
    requires first + n <= 0x8_0000_0000
    ensures UserRun(first, n) && PageRun(first, n)
  {
    forall q | Good(q) && InRun(q, first, n)
      ensures UserPage(q)
    {
      assert q.i4 < 256;
    }
    forall m: nat | first <= m < first + n
      ensures !InWindow(PageOf(m))
    {
      assert InRun(PageOf(m), first, n);
    }
  }

  /** The pages a shrink from `was` to `now` bytes walks over, as an offset and a
      count from the heap's first page. */
  lemma ShrinkRun(was: nat, now: nat)
    requires now < was <= HEAP_MAX_SIZE
    ensures NumberAt(HEAP_BASE + now) == HEAP_FIRST + now / PAGE_SIZE
    ensures var n := now / PAGE_SIZE + Steps(was - now);
            && Steps(now) <= n <= Steps(was)
            && n == if Strands(was, now) then Steps(was) - 1 else Steps(was)
  {
    NumberOfAddress(HEAP_BASE + now);
    var a, r, b, t := was / PAGE_SIZE, was % PAGE_SIZE, now / PAGE_SIZE, now % PAGE_SIZE;
    StepsOf(a, r);
    StepsOf(b, t);
    if r >= t { StepsOf(a - b, r - t); } else { StepsOf(a - b - 1, PAGE_SIZE + r - t); }
  }

  lemma StepsOf(pages: nat, rest: nat)
    requires rest < PAGE_SIZE
    ensures Steps(pages * PAGE_SIZE + rest) == pages + if rest == 0 then 0 else 1
  {
  }

  /** A shrink from `was` to `now` bytes that stops short of the last page. */
  predicate Strands(was: nat, now: nat) {
    0 < was % PAGE_SIZE <= now % PAGE_SIZE
  }

  /** The page with the last byte below the new break is freed by a shrink exactly
      when the new size is not a whole number of pages. */
  lemma ShrinkLosesLiveBytes(was: nat, now: nat)
    requires 0 < now < was <= HEAP_MAX_SIZE
    ensures InRun(PageAt(HEAP_BASE + now - 1), NumberAt(HEAP_BASE + now), Steps(was - now)) <==> now % PAGE_SIZE != 0
  {
    NumberOfAddress(HEAP_BASE + now - 1);
    ShrinkRun(was, now);
  }

  /** Shrinking a heap of 0x2400 bytes to 0x800: the walk starts in the middle of page 0
      and ends before page 2, so it frees the page of the bytes that are kept and leaves
      the last page behind. */
  lemma UnalignedShrinkExample()
    ensures Strands(0x2400, 0x800)
    ensures var run := Steps(0x2400 - 0x800);
            && InRun(PageOf(HEAP_FIRST), NumberAt(HEAP_BASE + 0x800), run)
            && !InRun(PageOf(HEAP_FIRST + 2), NumberAt(HEAP_BASE + 0x800), run)
            && InRun(PageOf(HEAP_FIRST + 2), HEAP_FIRST, Steps(0x2400))
  {
    ShrinkRun(0x2400, 0x800);
    PageOfNumber(PageOf(HEAP_FIRST));
    PageOfNumber(PageOf(HEAP_FIRST + 2));
  }

  /** The heap reaches the buffer region exactly when it is larger than 0xFF_0000_0000 bytes. */
  lemma HeapMeetsBuffers(size: nat)
    requires size <= HEAP_MAX_SIZE
    ensures (exists q :: && Good(q) && InRun(q, HEAP_FIRST, Steps(size))
                         && InRun(q, BUFFER_BASE / PAGE_SIZE, BUFFER_MAX_SIZE / PAGE_SIZE))
            <==> size > 0xFF_0000_0000
  {
    var m := BUFFER_BASE / PAGE_SIZE;
    assert Good(PageOf(m)) && InRun(PageOf(m), m, BUFFER_MAX_SIZE / PAGE_SIZE);
    if size > 0xFF_0000_0000 {
      assert InRun(PageOf(m), HEAP_FIRST, Steps(size));
    }
  }

  /** Nothing but demand pages is mapped in the heap below the break or in the stack. */
  ghost predicate Exclusive(flat: FlatMap, heapSize: nat, demand: set<Page>) {
    RunOnDemand(flat, HEAP_FIRST, Steps(heapSize), demand) && RunOnDemand(flat, STACK_FIRST, STACK_PAGES, demand)
  }

  /** Every demand page is a heap page below the break or a stack page. */
  ghost predicate Placed(demand: set<Page>, heapSize: nat) {
    forall q <- demand :: InRun(q, HEAP_FIRST, Steps(heapSize)) || InRun(q, STACK_FIRST, STACK_PAGES)
  }

  /** The demand pages that are neither: stranded by earlier shrinks. */
  ghost function Stray(demand: set<Page>, heapSize: nat): set<Page> {
    set q <- demand | !InRun(q, HEAP_FIRST, Steps(heapSize)) && !InRun(q, STACK_FIRST, STACK_PAGES)
  }

  const DEMAND_OPTIONS := Options(true, false, true)

  /** After a fault at `addr`, as the processor sees it: the page is the new frame, for user
      code to read and write and not to execute; every other address outside the self-map is
      translated as before. */
  ghost predicate FaultedAs(root: nat, mem: Memory, mem': Memory, addr: nat, f: nat) {
    && (forall v: nat :: v / PAGE_SIZE == addr / PAGE_SIZE ==>
          HwWalk(root, mem', v) == Mapped(f + v % PAGE_SIZE, true, true, true))
    && (forall v: nat :: !InWindow(PageAt(v)) && PageAt(v) != PageAt(addr) ==>
          HwWalk(root, mem', v) == HwWalk(root, mem, v))
  }

  lemma MappedIsFaulted(root: nat, mem: Memory, tabs: Tables, mem': Memory, addr: nat, f: nat)
    requires addr < 0x8000_0000_0000 && WellFormed(root, mem, tabs) && Flat(root, mem, tabs)[PageAt(addr)] == None
    requires MappedAs(root, mem, mem', addr / PAGE_SIZE * PAGE_SIZE, PAGE_SIZE, f, DEMAND_OPTIONS)
    requires ElsewhereKept(root, mem, mem', NumberAt(addr / PAGE_SIZE * PAGE_SIZE), Steps(PAGE_SIZE))
    ensures FaultedAs(root, mem, mem', addr, f)
  {
    hide HwWalk, PageAt, Number, LeafOf, Linked, Rooted, PageOf;
    FaultPage(addr);
    var page := addr / PAGE_SIZE * PAGE_SIZE;
    forall v: nat | v / PAGE_SIZE == addr / PAGE_SIZE
      ensures HwWalk(root, mem', v) == Mapped(f + v % PAGE_SIZE, true, true, true)
    {
      SamePage(v, addr);
      assert !InWindow(PageAt(addr));
      HwMatchesLeaf(root, mem, tabs, v);
      assert page <= v < page + Steps(PAGE_SIZE) * PAGE_SIZE;
    }
    forall v: nat | !InWindow(PageAt(v)) && PageAt(v) != PageAt(addr)
      ensures HwWalk(root, mem', v) == HwWalk(root, mem, v)
    {
      if Number(PageAt(v)) == Number(PageAt(addr)) { NumberInjective(PageAt(v), PageAt(addr)); }
    }
  }

  class UserMemory {
    const space: AddressSpace
    var heapSize: nat
    ghost var demand: set<Page>
    ghost const background: set<nat>

    /** The frames are accounted for, wherever earlier breaks left demand pages. */
    ghost predicate Accounted()
      reads this, space
    {
      && space.Valid() && heapSize <= HEAP_MAX_SIZE
      && Conserved(space.root, space.Now(), demand, background)
      && Exclusive(space.Translations(), heapSize, demand)
    }

    /** And no demand page is stray. */
    ghost predicate Valid()
      reads this, space
    {
      Accounted() && Placed(demand, heapSize)
    }

    /** A new process: empty heap, untouched stack. */
    constructor (a: AddressSpace)
      requires a.Valid() && Tidy(a.Now())
      requires forall q <- a.Translations() :: InRun(q, STACK_FIRST, STACK_PAGES) ==> a.Translations()[q] == None
      ensures Valid() && space == a && heapSize == 0 && demand == {}
      ensures background == a.used - UserTableFrames(a.Now())
    {
      space := a;
      heapSize := 0;
      demand := {};
      background := a.used - UserTableFrames(a.Now());
      new;
      hide Linked, Rooted, LeafOf, Inhabited, Number, Conserved;
      NothingOnDemand(space.root, space.Now());
    }

    /** The common part of both handlers: map a fresh zeroed frame at the page of `addr`. */
    method MapFresh(addr: nat)
      requires Accounted() && addr < 0x8000_0000_0000
      requires space.Translations()[PageAt(addr)] == None
      modifies this, space
      ensures Accounted() && Faulted(addr)
    {
      hide Linked, Rooted, LeafOf, Inhabited, Number, PageAt, PageOf, Widened, Grown, Balanced, Tidy, DemandLeaves,
           MappedAs, ElsewhereKept, FaultedAs, HwWalk;
      var page := addr / PAGE_SIZE * PAGE_SIZE;
      ghost var s, p := space.Now(), PageAt(addr);
      FaultPage(addr);
      var f := space.AllocateFrame();
      ghost var s1 := space.Now();
      MapInner(space, f, page, PAGE_SIZE, DEMAND_OPTIONS);
      if old(Widened(space.root, space.mem, space.tabs)) {
        MappedIsFaulted(space.root, s.mem, s.tabs, space.mem, addr, f);
      }
      MapRunOne(Flat(space.root, s.mem, s.tabs), p, f, DEMAND_OPTIONS.ToFlags());
      FaultConserved(space.root, s, s1, space.Now(), p, f, DEMAND_OPTIONS.ToFlags(), demand, background);
      demand := demand + {p};
    }

    /** Whether an address lies in the stack region, or in the heap below the break. */
    predicate InStack(addr: nat) {
      STACK_BASE <= addr < STACK_BASE + STACK_MAX_SIZE
    }

    predicate InHeap(addr: nat)
      reads this
    {
      HEAP_BASE <= addr < HEAP_BASE + heapSize
    }

    /** What a handled fault at `addr` leaves behind. */
    twostate predicate Faulted(addr: nat)
      requires old(space.Valid()) && space.Valid()
      reads this, space
    {
      && heapSize == old(heapSize) && demand == old(demand) + {PageAt(addr)}
      && exists f :: && f !in old(space.used)
                     && space.Translations() ==
                          old(space.Translations())[PageAt(addr) := Some(Leaf(Entry(f, DEMAND_OPTIONS.ToFlags()), 1))]
                     && (old(Widened(space.root, space.mem, space.tabs)) ==>
                           FaultedAs(space.root, old(space.mem), space.mem, addr, f))
    }

    /** `try_handle_stack_page_fault`. */
    method TryStackFault(addr: nat) returns (handled: bool)
      requires Accounted() && addr < 0x1_0000_0000_0000 && space.Translations()[PageAt(addr)] == None
      modifies this, space
      ensures Accounted() && handled == InStack(addr)
      ensures if handled then Faulted(addr) else unchanged(this, space)
      ensures Stray(demand, heapSize) == old(Stray(demand, heapSize))
    {
      if addr < STACK_BASE || addr >= STACK_BASE + STACK_MAX_SIZE {
        return false;
      }
      hide Conserved, Exclusive, PageAt, Number, Stray;
      NumberOfAddress(addr);
      FaultStray(demand, heapSize, PageAt(addr));
      MapFresh(addr);
      return true;
    }

    /** `try_handle_heap_page_fault`, with the break of the current process. */
    method TryHeapFault(addr: nat) returns (handled: bool)
      requires Accounted() && addr < 0x1_0000_0000_0000 && space.Translations()[PageAt(addr)] == None
      modifies this, space
      ensures Accounted() && handled == old(InHeap(addr))
      ensures if handled then Faulted(addr) else unchanged(this, space)
      ensures Stray(demand, heapSize) == old(Stray(demand, heapSize))
    {
      if addr < HEAP_BASE || addr >= HEAP_BASE + heapSize {
        return false;
      }
      hide Conserved, Exclusive, PageAt, Number, Stray;
      NumberOfAddress(addr);
      FaultStray(demand, heapSize, PageAt(addr));
      MapFresh(addr);
      return true;
    }

    /** `default_page_fault_handler`, up to killing the process. The processor reports
        a protection violation whenever the page is mapped. */
    method PageFault(addr: nat, userMode: bool, protection: bool) returns (handled: bool)
      requires Accounted() && addr < 0x1_0000_0000_0000
      requires !protection ==> space.Translations()[PageAt(addr)] == None
      modifies this, space
      ensures Accounted()
      ensures handled == (userMode && !protection && (InStack(addr) || old(InHeap(addr))))
      ensures handled <==>
                && userMode && !protection
                && (0x7FFF_FEF0_0000 <= addr < 0x7FFF_FFF0_0000 ||
                    0x1_0000_0000 <= addr < 0x1_0000_0000 + old(heapSize))
      ensures if handled then Faulted(addr) else unchanged(this, space)
      ensures Stray(demand, heapSize) == old(Stray(demand, heapSize))
    {
      hide Conserved, Exclusive, PageAt, LeafOf, Linked, Rooted;
      if userMode && !protection {
        handled := TryStackFault(addr);
        if !handled {
          handled := TryHeapFault(addr);
        }
        return;
      }
      return false;
    }

    /** The pages `[first, first + n)` are unmapped and no longer on demand; every
        other page translates as before. */
    twostate predicate Freed(first: nat, n: nat)
      requires old(space.Valid()) && space.Valid()
      reads this, space
    {
      && demand == Outside(old(demand), first, n)
      && space.Translations() == imap q: Page | q in old(space.Translations()) ::
           if InRun(q, first, n) then None else old(space.Translations())[q]
    }

    /** `free_region` on a region where only demand pages are mapped. */
    method FreeRegion(base: nat, size: nat)
      requires Accounted() && base + size <= 0x8000_0000_0000
      requires RunOnDemand(space.Translations(), NumberAt(base), Steps(size), demand)
      modifies space, this`demand
      ensures Accounted() && Freed(NumberAt(base), Steps(size))
    {
      hide Linked, Rooted, LeafOf, Inhabited, Number, PageAt, PageOf, Widened, Balanced, Tidy, DemandLeaves, UnmapRun,
           FramesReturned, DroppedFor, Kept, LeafFrames, RunReturnable, AllSmall, NoGiant;
      ghost var s, first, n := space.Now(), NumberAt(base), Steps(size);
      UserRegion(base, size);
      DemandReturnable(space.root, s, first, n, demand, background);
      DemandUnmaps(space.root, s.mem, s.tabs, first, n);
      ReleaseRun(space, base, size, true);
      FreeConserved(space.root, s, space.Now(), first, n, demand, background);
      demand := Outside(demand, first, n);
    }

    /** The shrinking half of `Mapping::resize`: free the pages above the new size. */
    method Shrink(newSize: nat)
      requires Accounted() && newSize < heapSize
      modifies this, space
      ensures Accounted() && heapSize == newSize
      ensures Freed(NumberAt(HEAP_BASE + newSize), Steps(old(heapSize) - newSize))
      ensures Stray(demand, heapSize) == old(Stray(demand, heapSize)) + Stranded(old(demand), old(heapSize), newSize)
    {
      hide PageAt, PageOf, Number, LeafOf, Linked, Rooted, Shape, Balanced, Tidy, Stray, Stranded, Strands, Steps;
      var oldSize := heapSize;
      ghost var flat, d := space.Translations(), demand;
      ShrinkRun(oldSize, newSize);
      ShrinkOnDemand(flat, oldSize, newSize, d);
      ShrinkStray(d, oldSize, newSize);
      FreeRegion(HEAP_BASE + newSize, oldSize - newSize);
      ShrinkExclusive(flat, space.Translations(), oldSize, newSize, d, NumberAt(HEAP_BASE + newSize),
                      Steps(oldSize - newSize));
      heapSize := newSize;
    }

    /** `set_brk` with `Mapping::resize`: move the break; a shrink frees pages. Growing
        keeps the account exactly when nothing else is mapped where the heap grows to. */
    method SetBrk(newBrk: nat) returns (brk: nat)
      requires Accounted()
      modifies this, space
      ensures brk == HEAP_BASE + heapSize && space.Valid()
      ensures !(HEAP_BASE <= newBrk <= HEAP_BASE + HEAP_MAX_SIZE) ==> unchanged(this, space)
      ensures HEAP_BASE <= newBrk <= HEAP_BASE + HEAP_MAX_SIZE ==> brk == newBrk
      ensures heapSize >= old(heapSize) ==>
                && unchanged(space) && demand == old(demand)
                && (Accounted() <==> RunOnDemand(space.Translations(), HEAP_FIRST, Steps(heapSize), demand))
                && Stray(demand, heapSize) <= old(Stray(demand, heapSize))
      ensures heapSize < old(heapSize) ==>
                && Accounted() && Freed(NumberAt(brk), Steps(old(heapSize) - heapSize))
                && Stray(demand, heapSize) ==
                     old(Stray(demand, heapSize)) + Stranded(old(demand), old(heapSize), heapSize)
    {
      hide PageAt, PageOf, Number, LeafOf, Linked, Rooted, Shape, Balanced, Tidy, Strands, Stranded, Conserved, Freed;
      if newBrk < HEAP_BASE || newBrk > HEAP_BASE + HEAP_MAX_SIZE {
        return HEAP_BASE + heapSize;
      }
      var newSize := newBrk - HEAP_BASE;
      if newSize < heapSize {
        Shrink(newSize);
      } else {
        GrowStray(demand, heapSize, newSize);
        heapSize := newSize;
      }
      return HEAP_BASE + heapSize;
    }

    /** Dropping the process's mappings: the stack, then the heap. */
    method Exit()
      requires Accounted()
      modifies this, space
      ensures Accounted() && heapSize == old(heapSize)
      ensures space.Translations() == imap q: Page | q in old(space.Translations()) ::
                if InRun(q, HEAP_FIRST, Steps(heapSize)) || InRun(q, STACK_FIRST, STACK_PAGES) then None
                else old(space.Translations())[q]
      ensures demand == old(Stray(demand, heapSize))
      ensures old(Valid() && forall q <- space.Translations() :: UserPage(q) && q !in demand ==>
                    space.Translations()[q] == None) ==>
                space.used == background && forall k <- space.tabs :: !UserKey(k)
    {
      hide PageAt, PageOf, Number, LeafOf, Linked, Rooted, Shape, Balanced, Tidy, Conserved, Steps, NumberAt;
      ghost var flat, d := space.Translations(), demand;
      RegionNumbers(heapSize);
      FreeRegion(STACK_BASE, STACK_MAX_SIZE);
      ghost var flat1 := space.Translations();
      OnDemandKept(flat, flat1, HEAP_FIRST, Steps(heapSize), d, STACK_FIRST, STACK_PAGES);
      FreeRegion(HEAP_BASE, heapSize);
      OnDemandKept(flat1, space.Translations(), STACK_FIRST, STACK_PAGES, Outside(d, STACK_FIRST, STACK_PAGES),
                   HEAP_FIRST, Steps(heapSize));
      assert demand == Stray(d, heapSize);
      if Placed(d, heapSize) {
        assert demand == {};
        if forall q <- flat :: UserPage(q) && q !in d ==> flat[q] == None {
          assert forall q :: UserPage(q) ==> space.Translations()[q] == None;
          NothingLeft(space.root, space.Now(), demand, background);
        }
      }
    }

    /** Mapping other memory in the user half, outside the heap and the stack. */
    method MapOther(phys: nat, base: nat, size: nat, options: Options)
      requires Accounted() && phys % PAGE_SIZE == 0 && base % PAGE_SIZE == 0 && base + size <= 0x8000_0000_0000
      requires forall q :: Good(q) && InRun(q, NumberAt(base), Steps(size)) ==>
                 !InRun(q, HEAP_FIRST, Steps(heapSize)) && !InRun(q, STACK_FIRST, STACK_PAGES)
      modifies space
      ensures Accounted()
      ensures space.Translations() == MapRun(old(space.Translations()), NumberAt(base), Steps(size), phys,
                                             options.ToFlags())
      ensures old(Widened(space.root, space.mem, space.tabs)) ==>
                && MappedAs(space.root, old(space.mem), space.mem, base, size, phys, options)
                && ElsewhereKept(space.root, old(space.mem), space.mem, NumberAt(base), Steps(size))
    {
      hide PageAt, PageOf, Number, LeafOf, Linked, Rooted, Shape, Balanced, Tidy, Steps, Grown, Widened, Conserved,
           MappedAs, ElsewhereKept, HwWalk;
      ghost var s := space.Now();
      UserRegion(base, size);
      MapInner(space, phys, base, size, options);
      MapConserved(space.root, s, space.Now(), NumberAt(base), Steps(size), phys, options.ToFlags(), demand,
                   background);
    }

    /** Unmapping 4 KB pages of such a mapping. */
    method UnmapOther(base: nat, size: nat)
      requires Accounted() && base % PAGE_SIZE == 0 && base + size <= 0x8000_0000_0000
      requires NumberAt(base) + Steps(size) <= PAGES
      requires AllSmall(space.Translations(), NumberAt(base), Steps(size))
      requires forall q <- demand :: !InRun(q, NumberAt(base), Steps(size))
      modifies space
      ensures Accounted()
      ensures space.Translations() == imap q: Page | q in old(space.Translations()) ::
                if InRun(q, NumberAt(base), Steps(size)) then None else old(space.Translations())[q]
    {
      hide PageAt, PageOf, Number, LeafOf, Linked, Rooted, Balanced, Tidy, Steps, Widened, UnmapRun, FramesReturned,
           DroppedFor, Kept, LeafFrames;
      ghost var s := space.Now();
      UserRegion(base, size);
      DemandUnmaps(space.root, s.mem, s.tabs, NumberAt(base), Steps(size));
      ReleaseRun(space, base, size, false);
      UnmapConserved(space.root, s, space.Now(), NumberAt(base), Steps(size), demand, background);
    }
  }

  lemma FaultStray(demand: set<Page>, heapSize: nat, p: Page)
    requires InRun(p, HEAP_FIRST, Steps(heapSize)) || InRun(p, STACK_FIRST, STACK_PAGES)
    ensures Stray(demand + {p}, heapSize) == Stray(demand, heapSize)
  {
  }

  lemma RegionNumbers(heapSize: nat)
    requires heapSize <= HEAP_MAX_SIZE
    ensures NumberAt(STACK_BASE) == STACK_FIRST && Steps(STACK_MAX_SIZE) == STACK_PAGES
    ensures NumberAt(HEAP_BASE) == HEAP_FIRST
  {
    NumberOfAddress(STACK_BASE);
    NumberOfAddress(HEAP_BASE);
  }

  lemma OnDemandKept(flat: FlatMap, flat': FlatMap, first: nat, n: nat, demand: set<Page>, gone: nat, m: nat)
    requires RunOnDemand(flat, first, n, demand)
    requires flat' == imap q: Page | q in flat :: if InRun(q, gone, m) then None else flat[q]
    ensures RunOnDemand(flat', first, n, Outside(demand, gone, m))
  {
    hide Number;
  }

  lemma GrowStray(demand: set<Page>, was: nat, now: nat)
    requires was <= now
    ensures Stray(demand, now) <= Stray(demand, was)
  {
    hide Number;
    assert Steps(was) <= Steps(now);
  }

  lemma ShrinkOnDemand(flat: FlatMap, was: nat, now: nat, demand: set<Page>)
    requires now < was <= HEAP_MAX_SIZE && RunOnDemand(flat, HEAP_FIRST, Steps(was), demand)
    ensures RunOnDemand(flat, NumberAt(HEAP_BASE + now), Steps(was - now), demand)
  {
    hide Number, PageAt, NumberAt;
    ShrinkRun(was, now);
  }

  /** The page a shrink strands, if it strands one. */
  ghost function Stranded(demand: set<Page>, was: nat, now: nat): set<Page>
    requires now < was <= HEAP_MAX_SIZE
  {
    var last := PageOf(HEAP_FIRST + Steps(was) - 1);
    if Strands(was, now) && last in demand then {last} else {}
  }

  /** After a shrink the stray pages are those there were and the one stranded by it. */
  lemma ShrinkStray(demand: set<Page>, was: nat, now: nat)
    requires now < was <= HEAP_MAX_SIZE && forall q <- demand :: UserPage(q)
    ensures Stray(Outside(demand, NumberAt(HEAP_BASE + now), Steps(was - now)), now) ==
            Stray(demand, was) + Stranded(demand, was, now)
  {
    ShrinkRun(was, now);
    var last := PageOf(HEAP_FIRST + Steps(was) - 1);
    var rest := Outside(demand, NumberAt(HEAP_BASE + now), Steps(was - now));
    assert Number(last) == HEAP_FIRST + Steps(was) - 1;
    forall q <- demand
      ensures q in Stray(rest, now) <==> q in Stray(demand, was) || q in Stranded(demand, was, now)
    {
      if Number(q) == Number(last) { NumberInjective(q, last); }
    }
  }

  lemma ShrinkExclusive(flat: FlatMap, flat': FlatMap, was: nat, now: nat, demand: set<Page>, first: nat, n: nat)
    requires Exclusive(flat, was, demand) && now <= was
    requires flat' == imap q: Page | q in flat :: if InRun(q, first, n) then None else flat[q]
    ensures Exclusive(flat', now, Outside(demand, first, n))
  {
    hide Number;
    assert Steps(now) <= Steps(was);
  }

  lemma UserRegion(base: nat, size: nat)
    requires base + size <= 0x8000_0000_0000
    ensures NumberAt(base) + Steps(size) <= PAGES
    ensures UserRun(NumberAt(base), Steps(size)) && PageRun(NumberAt(base), Steps(size))
  {
    NumberOfAddress(base);
    assert base / PAGE_SIZE + Steps(size) <= 0x8_0000_0000;
    UserNumbers(NumberAt(base), Steps(size));
  }

  /** The page a fault address lies in. */
  lemma FaultPage(addr: nat)
    requires addr < 0x8000_0000_0000
    ensures var page := addr / PAGE_SIZE * PAGE_SIZE;
            && page % PAGE_SIZE == 0 && PageAt(page) == PageAt(addr)
            && UserPage(PageAt(addr)) && UserRun(Number(PageAt(addr)), Steps(PAGE_SIZE))
            && PageRun(NumberAt(page), Steps(PAGE_SIZE))
  {
    var page := addr / PAGE_SIZE * PAGE_SIZE;
    NumberOfAddress(addr);
    NumberOfAddress(page);
    NumberInjective(PageAt(page), PageAt(addr));
    UserNumbers(NumberAt(addr), 1);
    assert InRun(PageAt(addr), NumberAt(addr), 1);
  }

  lemma MapRunOne(flat: FlatMap, p: Page, phys: nat, fl: Flags)
    requires Good(p) && (forall q :: q in flat <==> Good(q)) && flat[p] == None
    ensures MapRun(flat, Number(p), 1, phys, fl) == flat[p := Some(Leaf(Entry(phys, fl), 1))]
  {
    PageOfNumber(p);
    MapRunStep(flat, Number(p), 0, phys, fl);
    assert MapRun(flat, Number(p), 0, phys, fl) == flat;
  }
}
