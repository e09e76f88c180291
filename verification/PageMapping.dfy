/** Mapping runs of 4 KB pages and changing their permissions (`memory/paging.rs`). */
module PageMapping {
  import opened Common
  import opened Paging
  import opened TableTree
  import opened TableEdit
  import opened AddressSpaces

  // ---------------------------------------------------------------------------
  // Runs of pages
  // ---------------------------------------------------------------------------

  /** Number of 4 KB steps `(0..size).step_by(4096)` makes. */
  function Steps(size: nat): nat {
    (size + PAGE_SIZE - 1) / PAGE_SIZE
  }

  /** Consecutive page numbers, none of them in the self-map window. */
  ghost predicate PageRun(first: nat, n: nat) {
    first + n <= PAGES && forall m: nat :: first <= m < first + n ==> !InWindow(PageOf(m))
  }

  /** Page `q` is one of the run. */
  predicate InRun(q: Page, first: nat, n: nat) {
    first <= Number(q) < first + n
  }

  /** Number of the page at an address. */
  function NumberAt(v: nat): (m: nat)
    ensures m < PAGES
  {
    NumberBound(PageAt(v));
    Number(PageAt(v))
  }

  lemma StepNumber(base: nat, j: nat)
    requires NumberAt(base) + j < PAGES
    ensures NumberAt(base + j * PAGE_SIZE) == NumberAt(base) + j
  {
    StepPage(base, j);
    PageOfNumber(PageAt(base + j * PAGE_SIZE));
  }

  lemma NumberInjective(p: Page, q: Page)
    requires Good(p) && Good(q) && Number(p) == Number(q)
    ensures p == q
  {
    PageOfNumber(p);
    PageOfNumber(q);
  }

  /** Where a byte of the region is, by page and offset. */
  lemma BytePlace(base: nat, o: nat)
    requires base % PAGE_SIZE == 0 && NumberAt(base) + o / PAGE_SIZE < PAGES
    ensures NumberAt(base + o) == NumberAt(base) + o / PAGE_SIZE && (base + o) % PAGE_SIZE == o % PAGE_SIZE
  {
    hide PageAt, Number;
    StepNumber(base, o / PAGE_SIZE);
    ByteArith(base, o);
    SamePage(base + o, base + o / PAGE_SIZE * PAGE_SIZE);
  }

  lemma ByteArith(base: nat, o: nat)
    requires base % PAGE_SIZE == 0
    ensures (base + o) / PAGE_SIZE == (base + o / PAGE_SIZE * PAGE_SIZE) / PAGE_SIZE
    ensures (base + o) % PAGE_SIZE == o % PAGE_SIZE
  {
  }

  lemma SamePage(v: nat, w: nat)
    requires v / PAGE_SIZE == w / PAGE_SIZE
    ensures PageAt(v) == PageAt(w)
  {
    hide PageOf;
  }

  /** Steps cover the size and no more. */
  lemma StepsCover(size: nat)
    ensures size <= Steps(size) * PAGE_SIZE < size + PAGE_SIZE
  {
  }

  /** The flat map after mapping a run of pages: unmapped pages of the run get the
      frame at the same offset, everything else is as it was. */
  ghost function MapRun(flat: FlatMap, first: nat, n: nat, phys: nat, fl: Flags): FlatMap {
    imap q: Page | q in flat :: if InRun(q, first, n) && flat[q] == None
                                then Some(Leaf(Entry(phys + (Number(q) - first) * PAGE_SIZE, fl), 1))
                                else flat[q]
  }

  lemma MapRunStep(flat: FlatMap, first: nat, j: nat, phys: nat, fl: Flags)
    requires first + j < PAGES && forall q :: q in flat <==> Good(q)
    ensures var done := MapRun(flat, first, j, phys, fl);
            var p := PageOf(first + j);
            && p in flat && done[p] == flat[p]
            && MapRun(flat, first, j + 1, phys, fl) ==
                 if flat[p] == None then done[p := Some(Leaf(Entry(phys + j * PAGE_SIZE, fl), 1))] else done
  {
    var p := PageOf(first + j);
    forall q | q in flat
      ensures InRun(q, first, j + 1) <==> InRun(q, first, j) || q == p
    {
      if Number(q) == first + j { NumberInjective(p, q); }
    }
  }

  /** The flat map after changing the leaf flags of a run of 4 KB pages. */
  ghost function ReflagRun(flat: FlatMap, first: nat, n: nat, fl: Flags): FlatMap {
    imap q: Page | q in flat :: if InRun(q, first, n) && flat[q].Some?
                                then Some(Leaf(Entry(flat[q].value.entry.addr, fl), 1))
                                else flat[q]
  }

  lemma ReflagRunStep(flat: FlatMap, first: nat, j: nat, fl: Flags)
    requires first + j < PAGES && forall q :: q in flat <==> Good(q)
    requires flat[PageOf(first + j)].Some?
    ensures var done := ReflagRun(flat, first, j, fl);
            var p := PageOf(first + j);
            && done[p] == flat[p]
            && ReflagRun(flat, first, j + 1, fl) == done[p := Some(Leaf(Entry(flat[p].value.entry.addr, fl), 1))]
  {
    var p := PageOf(first + j);
    forall q | q in flat
      ensures InRun(q, first, j + 1) <==> InRun(q, first, j) || q == p
    {
      if Number(q) == first + j { NumberInjective(p, q); }
    }
  }

  // ---------------------------------------------------------------------------
  // What mapping does to the set of tables
  // ---------------------------------------------------------------------------

  /** A table below the root on the walk of one of the pages of a run. */
  ghost predicate OnWalk(k: Key, first: nat, n: nat) {
    k.Level() <= 3 && exists q :: Good(q) && InRun(q, first, n) && k == KeyOf(q, k.Level())
  }

  /** Every table added serves a page of the run and has an entry. */
  ghost predicate AddedFor(s: Snapshot, s': Snapshot, first: nat, n: nat) {
    forall k <- s'.tabs :: k in s.tabs || (OnWalk(k, first, n) && Inhabited(s'.mem, s'.tabs[k]))
  }

  /** Tables were only added, in frames taken from the allocator; each serves a page
      of the run and has an entry, and no table that had an entry lost them all. */
  ghost predicate Grown(s: Snapshot, s': Snapshot, first: nat, n: nat) {
    TablesAdded(s, s') && AddedFor(s, s', first, n) && InhabitedKept(s, s')
  }

  lemma GrownRefl(s: Snapshot, first: nat, n: nat)
    ensures Grown(s, s, first, n)
  {
    assert NewFrames(s, s) == {};
  }

  lemma GrownTrans(s0: Snapshot, s1: Snapshot, s2: Snapshot, first: nat, n: nat, m: nat)
    requires Grown(s0, s1, first, n) && Grown(s1, s2, first + n, m)
    ensures Grown(s0, s2, first, n + m)
  {
    hide Inhabited, Number, NewFrames;
    TablesAddedTrans(s0, s1, s2);
    forall k <- s2.tabs | k !in s0.tabs
      ensures OnWalk(k, first, n + m) && Inhabited(s2.mem, s2.tabs[k])
    {
      if k in s1.tabs {
        assert OnWalk(k, first, n);
      } else {
        assert OnWalk(k, first + n, m);
      }
    }
  }

  // ---------------------------------------------------------------------------
  // One page
  // ---------------------------------------------------------------------------

  /** Page `p` now has the 4 KB leaf `e`; all other pages translate as before. */
  ghost predicate PageSet(root: nat, s: Snapshot, s': Snapshot, p: Page, e: Entry) {
    && WellFormed(root, s.mem, s.tabs) && WellFormed(root, s'.mem, s'.tabs)
    && Flat(root, s'.mem, s'.tabs) == Flat(root, s.mem, s.tabs)[p := Some(Leaf(e, 1))]
    && (Widened(root, s.mem, s.tabs) ==> Widened(root, s'.mem, s'.tabs))
  }

  /** The walk of `p` has been prepared for a leaf with the flags of `e`. */
  ghost predicate Ready(root: nat, s: Snapshot, s1: Snapshot, p: Page, e: Entry) {
    && Prepared(root, s, s1, p, 1) && Good(p) && KeyOf(p, 1) in s1.tabs
    && GrantsAbove(root, s1, p, 1, e.flags)
    && e.flags.present && !e.flags.huge
  }

  ghost function LeafStep(s: Snapshot, p: Page, e: Entry): Snapshot
    requires Good(p) && KeyOf(p, 1) in s.tabs && s.tabs[KeyOf(p, 1)] in s.mem && |s.mem[s.tabs[KeyOf(p, 1)]]| == ENTRIES
  {
    s.(mem := Put(s.mem, s.tabs[KeyOf(p, 1)], p.i1, e))
  }

  lemma LeafStepSet(root: nat, s: Snapshot, s1: Snapshot, p: Page, e: Entry)
    requires Ready(root, s, s1, p, e)
    ensures PageSet(root, s, LeafStep(s1, p, e), p, e)
  {
    SetLeaf(root, s1.mem, s1.tabs, p, e);
    if Widened(root, s1.mem, s1.tabs) {
      assert Grants(root, s1, p, 2, e.flags);
      EdgeCovers(root, s1.mem, s1.tabs, p, 2);
      SetLeafWidened(root, s1.mem, s1.tabs, p, e);
    }
  }

  lemma LeafStepGrown(root: nat, s: Snapshot, s1: Snapshot, p: Page, e: Entry)
    requires Ready(root, s, s1, p, e)
    ensures Grown(s, LeafStep(s1, p, e), Number(p), 1)
  {
    hide Linked, Rooted, Widened, Flat, Number, Inhabited;
    var s2 := LeafStep(s1, p, e);
    assert NewFrames(s, s2) == NewFrames(s, s1);
    LeafStepInhabited(root, s1, p, e);
    forall k <- s2.tabs | k !in s.tabs
      ensures OnWalk(k, Number(p), 1) && Inhabited(s2.mem, s2.tabs[k])
    {
      assert k == KeyOf(p, k.Level());
      assert Good(p) && InRun(p, Number(p), 1);
      PathInhabited(root, s1, p, k.Level(), e);
    }
  }

  lemma LeafStepInhabited(root: nat, s: Snapshot, p: Page, e: Entry)
    requires Shape(root, s.mem, s.tabs) && Good(p) && KeyOf(p, 1) in s.tabs && e.flags.present
    ensures InhabitedKept(s, LeafStep(s, p, e))
  {
    var s' := LeafStep(s, p, e);
    forall k <- s.tabs | Inhabited(s.mem, s.tabs[k])
      ensures Inhabited(s'.mem, s.tabs[k])
    {
      var i :| 0 <= i < |s.mem[s.tabs[k]]| && s.mem[s.tabs[k]][i].flags.present;
      PutOther(root, s.mem, s.tabs, KeyOf(p, 1), p.i1, e, k, i);
      assert s'.mem[s.tabs[k]][i].flags.present;
    }
  }

  /** The tables on a prepared walk all have an entry once the leaf is written. */
  lemma PathInhabited(root: nat, s1: Snapshot, p: Page, l: nat, e: Entry)
    requires Shape(root, s1.mem, s1.tabs) && Good(p) && 1 <= l <= 3 && KeyOf(p, 1) in s1.tabs && KeyOf(p, l) in s1.tabs
    requires GrantsAbove(root, s1, p, 1, e.flags) && e.flags.present
    ensures Inhabited(LeafStep(s1, p, e).mem, s1.tabs[KeyOf(p, l)])
  {
    PutOther(root, s1.mem, s1.tabs, KeyOf(p, 1), p.i1, e, KeyOf(p, l), Index(p, l));
    if l > 1 { assert Grants(root, s1, p, l, e.flags); }
    assert LeafStep(s1, p, e).mem[s1.tabs[KeyOf(p, l)]][Index(p, l)].flags.present;
  }

  /** Write the leaf of a page that is unmapped or already has a 4 KB leaf. */
  method SetPage(a: AddressSpace, v: nat, e: Entry)
    requires a.Valid() && !InWindow(PageAt(v)) && e.flags.present && !e.flags.huge
    requires Reachable(a.root, a.Now(), PageAt(v), 1)
    modifies a
    ensures a.Valid() && PageSet(a.root, old(a.Now()), a.Now(), PageAt(v), e)
    ensures Grown(old(a.Now()), a.Now(), NumberAt(v), 1)
  {
    hide Widened, Linked, Rooted, PageAt, Number, LeafOf, InhabitedKept, AddedOn, TablesAdded, GrantsAbove;
    var t, i := a.EntryFor(v, 1, e.flags);
    ghost var s1 := a.Now();
    LeafStepSet(a.root, old(a.Now()), s1, PageAt(v), e);
    LeafStepGrown(a.root, old(a.Now()), s1, PageAt(v), e);
    a.mem := Put(a.mem, t, i, e);
    assert a.Now() == LeafStep(s1, PageAt(v), e);
  }

  // ---------------------------------------------------------------------------
  // map_inner and update_permissions
  // ---------------------------------------------------------------------------

  /** What the processor does with an address that has this leaf and these rights. */
  lemma WalkOfLeaf(root: nat, mem: Memory, tabs: Tables, v: nat)
    requires WellFormed(root, mem, tabs) && Widened(root, mem, tabs) && !InWindow(PageAt(v))
    ensures HwWalk(root, mem, v) ==
            match Flat(root, mem, tabs)[PageAt(v)]
            case None => Fault
            case Some(leaf) =>
              if 1 <= leaf.level <= 3
              then Mapped(LeafAddress(leaf.entry, leaf.level, v),
                          leaf.entry.flags.user, leaf.entry.flags.writable, leaf.entry.flags.noExec)
              else Fault
  {
    hide HwWalk, LeafOf, PageAt, Linked, Rooted, Widened, LeafAddress;
    HwMatchesLeaf(root, mem, tabs, v);
  }

  /** The page of a byte of a region belongs to its run. */
  lemma ByteInRun(base: nat, size: nat, o: nat)
    requires base % PAGE_SIZE == 0 && PageRun(NumberAt(base), Steps(size)) && o < Steps(size) * PAGE_SIZE
    ensures var q := PageAt(base + o);
            && Good(q) && !InWindow(q) && InRun(q, NumberAt(base), Steps(size))
            && Number(q) == NumberAt(base) + o / PAGE_SIZE && (base + o) % PAGE_SIZE == o % PAGE_SIZE
  {
    hide PageAt, PageOf, Number;
    assert o / PAGE_SIZE < Steps(size);
    BytePlace(base, o);
    PageOfNumber(PageAt(base + o));
  }

  /** After mapping a region, as the processor sees it: every byte that faulted is found at
      the same offset from the physical base, with exactly the asked rights. */
  ghost predicate MappedAs(root: nat, mem: Memory, mem': Memory, base: nat, size: nat, phys: nat, options: Options) {
    forall v: nat :: base <= v < base + Steps(size) * PAGE_SIZE && HwWalk(root, mem, v).Fault? ==>
      HwWalk(root, mem', v) == Mapped(phys + (v - base), options.user, options.writable, !options.executable)
  }

  /** And every other address, outside the self-map, is translated as before. */
  ghost predicate ElsewhereKept(root: nat, mem: Memory, mem': Memory, first: nat, n: nat) {
    forall v: nat :: !InWindow(PageAt(v)) && (!InRun(PageAt(v), first, n) || HwWalk(root, mem, v).Mapped?) ==>
      HwWalk(root, mem', v) == HwWalk(root, mem, v)
  }

  lemma MapRunWalks(root: nat, s: Snapshot, s': Snapshot, base: nat, size: nat, phys: nat, options: Options)
    requires WellFormed(root, s.mem, s.tabs) && Widened(root, s.mem, s.tabs)
    requires base % PAGE_SIZE == 0 && PageRun(NumberAt(base), Steps(size))
    requires var flat := Flat(root, s.mem, s.tabs);
             Reached(root, s, s', MapRun(flat, NumberAt(base), Steps(size), phys, options.ToFlags()),
                     NumberAt(base), Steps(size))
    ensures MappedAs(root, s.mem, s'.mem, base, size, phys, options)
    ensures ElsewhereKept(root, s.mem, s'.mem, NumberAt(base), Steps(size))
  {
    hide HwWalk, LeafOf, PageAt, PageOf, Number, Linked, Rooted, Widened, Grown, PageRun, Steps;
    forall v: nat | base <= v < base + Steps(size) * PAGE_SIZE && HwWalk(root, s.mem, v).Fault?
      ensures HwWalk(root, s'.mem, v) ==
              Mapped(phys + (v - base), options.user, options.writable, !options.executable)
    {
      ByteInRun(base, size, v - base);
      WalkOfLeaf(root, s.mem, s.tabs, v);
      WalkOfLeaf(root, s'.mem, s'.tabs, v);
      LeafLevels(root, s.mem, s.tabs, PageAt(v));
    }
    forall v: nat | && !InWindow(PageAt(v))
                    && (!InRun(PageAt(v), NumberAt(base), Steps(size)) || HwWalk(root, s.mem, v).Mapped?)
      ensures HwWalk(root, s'.mem, v) == HwWalk(root, s.mem, v)
    {
      WalkOfLeaf(root, s.mem, s.tabs, v);
      WalkOfLeaf(root, s'.mem, s'.tabs, v);
    }
  }

  lemma LeafLevels(root: nat, mem: Memory, tabs: Tables, p: Page)
    requires Shape(root, mem, tabs) && Good(p)
    ensures var leaf := Flat(root, mem, tabs)[p]; leaf.Some? ==> 1 <= leaf.value.level <= 3
  {
  }

  /** After changing the permissions of a region: every byte is where it was, with exactly
      the asked rights, and every other address is translated as before. */
  ghost predicate ReflaggedAs(root: nat, mem: Memory, mem': Memory, base: nat, size: nat, options: Options) {
    && (forall v: nat :: base <= v < base + Steps(size) * PAGE_SIZE ==>
          && HwWalk(root, mem, v).Mapped?
          && HwWalk(root, mem', v) ==
               Mapped(HwWalk(root, mem, v).pa, options.user, options.writable, !options.executable))
    && (forall v: nat :: !InWindow(PageAt(v)) && !InRun(PageAt(v), NumberAt(base), Steps(size)) ==>
          HwWalk(root, mem', v) == HwWalk(root, mem, v))
  }

  /** Every page of a run has a 4 KB leaf. */
  ghost predicate SmallLeaves(flat: FlatMap, first: nat, n: nat) {
    forall q <- flat :: InRun(q, first, n) ==> flat[q].Some? && flat[q].value.level == 1
  }

  lemma ReflagRunWalks(root: nat, s: Snapshot, s': Snapshot, base: nat, size: nat, options: Options)
    requires WellFormed(root, s.mem, s.tabs) && Widened(root, s.mem, s.tabs)
    requires base % PAGE_SIZE == 0 && PageRun(NumberAt(base), Steps(size))
    requires SmallLeaves(Flat(root, s.mem, s.tabs), NumberAt(base), Steps(size))
    requires Reached(root, s, s', ReflagRun(Flat(root, s.mem, s.tabs), NumberAt(base), Steps(size), options.ToFlags()),
                     NumberAt(base), Steps(size))
    ensures ReflaggedAs(root, s.mem, s'.mem, base, size, options)
  {
    hide HwWalk, LeafOf, PageAt, PageOf, Number, Linked, Rooted, Widened, Grown, PageRun, Steps;
    forall v: nat | base <= v < base + Steps(size) * PAGE_SIZE
      ensures HwWalk(root, s.mem, v).Mapped?
      ensures HwWalk(root, s'.mem, v) ==
              Mapped(HwWalk(root, s.mem, v).pa, options.user, options.writable, !options.executable)
    {
      ByteInRun(base, size, v - base);
      WalkOfLeaf(root, s.mem, s.tabs, v);
      WalkOfLeaf(root, s'.mem, s'.tabs, v);
    }
    forall v: nat | !InWindow(PageAt(v)) && !InRun(PageAt(v), NumberAt(base), Steps(size))
      ensures HwWalk(root, s'.mem, v) == HwWalk(root, s.mem, v)
    {
      WalkOfLeaf(root, s.mem, s.tabs, v);
      WalkOfLeaf(root, s'.mem, s'.tabs, v);
    }
  }

  /** What a mapping call achieves: the given flat map, widening kept, tables grown. */
  ghost predicate Reached(root: nat, s: Snapshot, s': Snapshot, flat: FlatMap, first: nat, n: nat) {
    && WellFormed(root, s.mem, s.tabs) && WellFormed(root, s'.mem, s'.tabs)
    && Flat(root, s'.mem, s'.tabs) == flat
    && (Widened(root, s.mem, s.tabs) ==> Widened(root, s'.mem, s'.tabs))
    && Grown(s, s', first, n)
  }

  /** Two mapping calls on adjacent runs are one on the joined run. */
  lemma ReachedTrans(root: nat, s: Snapshot, s1: Snapshot, s2: Snapshot, f1: FlatMap, f2: FlatMap, first: nat, n: nat,
                     m: nat)
    requires Reached(root, s, s1, f1, first, n) && Reached(root, s1, s2, f2, first + n, m)
    ensures Reached(root, s, s2, f2, first, n + m)
  {
    GrownTrans(s, s1, s2, first, n, m);
  }

  lemma ReachedRefl(root: nat, s: Snapshot, flat: FlatMap, first: nat, n: nat)
    requires WellFormed(root, s.mem, s.tabs) && flat == Flat(root, s.mem, s.tabs)
    ensures Reached(root, s, s, flat, first, n)
  {
    GrownRefl(s, first, n);
  }

  /** The flat map after one round of `map_inner`. */
  ghost function MapOne(flat: FlatMap, p: Page, phys: nat, fl: Flags): FlatMap {
    if p in flat && flat[p] == None then flat[p := Some(Leaf(Entry(phys, fl), 1))] else flat
  }

  lemma MapRound(root: nat, s: Snapshot, s1: Snapshot, s2: Snapshot, base: nat, j: nat, phys: nat, fl: Flags)
    requires WellFormed(root, s.mem, s.tabs) && NumberAt(base) + j < PAGES
    requires Reached(root, s, s1, MapRun(Flat(root, s.mem, s.tabs), NumberAt(base), j, phys, fl), NumberAt(base), j)
    requires var v := base + j * PAGE_SIZE;
             Reached(root, s1, s2, MapOne(Flat(root, s1.mem, s1.tabs), PageAt(v), phys + j * PAGE_SIZE, fl),
                     NumberAt(v), 1)
    ensures Reached(root, s, s2, MapRun(Flat(root, s.mem, s.tabs), NumberAt(base), j + 1, phys, fl), NumberAt(base),
                    j + 1)
  {
    hide Grown, Widened, Shape, Linked, Rooted, PageAt, PageOf, Number, LeafOf;
    StepPage(base, j);
    StepNumber(base, j);
    var flat := Flat(root, s.mem, s.tabs);
    MapRunStep(flat, NumberAt(base), j, phys, fl);
    ReachedTrans(root, s, s1, s2, MapRun(flat, NumberAt(base), j, phys, fl),
                 MapRun(flat, NumberAt(base), j + 1, phys, fl), NumberAt(base), j, 1);
  }

  /** One round of `map_inner`. */
  method MapStep(a: AddressSpace, virt: nat, phys: nat, fl: Flags)
    requires a.Valid() && !InWindow(PageAt(virt)) && fl.present && !fl.huge
    modifies a
    ensures a.Valid()
    ensures Reached(a.root, old(a.Now()), a.Now(),
                    MapOne(old(a.Translations()), PageAt(virt), phys, fl),
                    NumberAt(virt), 1)
  {
    var mapped := a.IsMapped(virt);
    if mapped {
      ReachedRefl(a.root, a.Now(), a.Translations(), NumberAt(virt), 1);
    } else {
      SetPage(a, virt, Entry(phys, fl));
    }
  }

  /** `map_inner`: map physical memory over a run of pages, skipping pages that
      already translate. */
  method MapInner(a: AddressSpace, basePhys: nat, baseVirt: nat, size: nat, options: Options)
    requires a.Valid() && basePhys % PAGE_SIZE == 0 && baseVirt % PAGE_SIZE == 0
    requires PageRun(NumberAt(baseVirt), Steps(size))
    modifies a
    ensures a.Valid()
    ensures Reached(a.root, old(a.Now()), a.Now(),
                    MapRun(old(a.Translations()), NumberAt(baseVirt), Steps(size), basePhys, options.ToFlags()),
                    NumberAt(baseVirt), Steps(size))
    ensures old(Widened(a.root, a.mem, a.tabs)) ==>
              && MappedAs(a.root, old(a.mem), a.mem, baseVirt, size, basePhys, options)
              && ElsewhereKept(a.root, old(a.mem), a.mem, NumberAt(baseVirt), Steps(size))
  {
    hide Grown, Widened, Shape, Linked, Rooted, PageAt, PageOf, Number, LeafOf, HwWalk, MappedAs, ReflaggedAs,
         ElsewhereKept;
    ghost var s, first := a.Now(), NumberAt(baseVirt);
    var fl := options.ToFlags();
    var j := 0;
    assert MapRun(a.Translations(), first, 0, basePhys, fl) == a.Translations();
    ReachedRefl(a.root, s, a.Translations(), first, 0);
    while j < Steps(size)
      invariant 0 <= j <= Steps(size) && a.Valid()
      invariant Reached(a.root, s, a.Now(), MapRun(Flat(a.root, s.mem, s.tabs), first, j, basePhys, fl), first, j)
    {
      ghost var s1 := a.Now();
      assert !InWindow(PageAt(baseVirt + j * PAGE_SIZE)) by { StepPage(baseVirt, j); }
      MapStep(a, baseVirt + j * PAGE_SIZE, basePhys + j * PAGE_SIZE, fl);
      MapRound(a.root, s, s1, a.Now(), baseVirt, j, basePhys, fl);
      j := j + 1;
    }
    if Widened(a.root, s.mem, s.tabs) { MapRunWalks(a.root, s, a.Now(), baseVirt, size, basePhys, options); }
  }

  /** The flat map after one round of `update_permissions`. */
  ghost function ReflagOne(flat: FlatMap, p: Page, fl: Flags): FlatMap {
    if p in flat && flat[p].Some? then flat[p := Some(Leaf(Entry(flat[p].value.entry.addr, fl), 1))] else flat
  }

  lemma ReflagRound(root: nat, s: Snapshot, s1: Snapshot, s2: Snapshot, base: nat, j: nat, fl: Flags)
    requires WellFormed(root, s.mem, s.tabs) && NumberAt(base) + j < PAGES
    requires Flat(root, s.mem, s.tabs)[PageAt(base + j * PAGE_SIZE)].Some?
    requires Reached(root, s, s1, ReflagRun(Flat(root, s.mem, s.tabs), NumberAt(base), j, fl), NumberAt(base), j)
    requires var v := base + j * PAGE_SIZE;
             Reached(root, s1, s2, ReflagOne(Flat(root, s1.mem, s1.tabs), PageAt(v), fl), NumberAt(v), 1)
    ensures Reached(root, s, s2, ReflagRun(Flat(root, s.mem, s.tabs), NumberAt(base), j + 1, fl), NumberAt(base), j + 1)
  {
    hide Grown, Widened, Shape, Linked, Rooted, PageAt, PageOf, Number, LeafOf;
    StepPage(base, j);
    StepNumber(base, j);
    var flat := Flat(root, s.mem, s.tabs);
    ReflagRunStep(flat, NumberAt(base), j, fl);
    ReachedTrans(root, s, s1, s2, ReflagRun(flat, NumberAt(base), j, fl),
                 ReflagRun(flat, NumberAt(base), j + 1, fl), NumberAt(base), j, 1);
  }

  /** One round of `update_permissions`. */
  method ReflagStep(a: AddressSpace, v: nat, fl: Flags)
    requires a.Valid() && !InWindow(PageAt(v)) && fl.present && !fl.huge
    requires var leaf := a.Translations()[PageAt(v)]; leaf.Some? && leaf.value.level == 1
    modifies a
    ensures a.Valid()
    ensures Reached(a.root, old(a.Now()), a.Now(),
                    ReflagOne(old(a.Translations()), PageAt(v), fl),
                    NumberAt(v), 1)
  {
    hide Widened, Linked, Rooted, PageAt, Number, LeafOf, InhabitedKept, AddedOn, TablesAdded, GrantsAbove;
    var t, i := a.EntryFor(v, 1, fl);
    ghost var s1 := a.Now();
    a.LeafAt(v, 1);
    var e := Entry(a.mem[t][i].addr, fl);
    LeafStepSet(a.root, old(a.Now()), s1, PageAt(v), e);
    LeafStepGrown(a.root, old(a.Now()), s1, PageAt(v), e);
    a.mem := Put(a.mem, t, i, e);
    assert a.Now() == LeafStep(s1, PageAt(v), e);
  }

  /** `update_permissions` on mapped 4 KB pages: new leaf flags, same frames. */
  method UpdatePermissions(a: AddressSpace, baseVirt: nat, size: nat, options: Options)
    requires a.Valid() && baseVirt % PAGE_SIZE == 0 && PageRun(NumberAt(baseVirt), Steps(size))
    requires forall q :: Good(q) && InRun(q, NumberAt(baseVirt), Steps(size)) ==>
               a.Translations()[q].Some? && a.Translations()[q].value.level == 1
    modifies a
    ensures a.Valid()
    ensures Reached(a.root, old(a.Now()), a.Now(),
                    ReflagRun(old(a.Translations()), NumberAt(baseVirt), Steps(size), options.ToFlags()),
                    NumberAt(baseVirt), Steps(size))
    ensures old(Widened(a.root, a.mem, a.tabs)) ==>
              ReflaggedAs(a.root, old(a.mem), a.mem, baseVirt, size, options)
  {
    hide Grown, Widened, Shape, Linked, Rooted, PageAt, PageOf, Number, LeafOf, HwWalk, MappedAs, ReflaggedAs,
         ElsewhereKept;
    ghost var s, first := a.Now(), NumberAt(baseVirt);
    var fl := options.ToFlags();
    var j := 0;
    assert ReflagRun(a.Translations(), first, 0, fl) == a.Translations();
    ReachedRefl(a.root, s, a.Translations(), first, 0);
    while j < Steps(size)
      invariant 0 <= j <= Steps(size) && a.Valid()
      invariant Reached(a.root, s, a.Now(), ReflagRun(Flat(a.root, s.mem, s.tabs), first, j, fl), first, j)
    {
      ghost var s1 := a.Now();
      StepPage(baseVirt, j);
      StepNumber(baseVirt, j);
      assert InRun(PageOf(first + j), first, Steps(size));
      ReflagStep(a, baseVirt + j * PAGE_SIZE, fl);
      ReflagRound(a.root, s, s1, a.Now(), baseVirt, j, fl);
      j := j + 1;
    }
    if Widened(a.root, s.mem, s.tabs) { ReflagRunWalks(a.root, s, a.Now(), baseVirt, size, options); }
  }
}
