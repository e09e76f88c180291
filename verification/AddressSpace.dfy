/** Page tables edited in place through the self-map (`memory/paging.rs`). */
module AddressSpaces {
  import opened Common
  import opened Paging
  import opened TableTree
  import opened TableEdit

  /** Everything the edits can change: table memory, the tree laid over it, and
      the frames the allocator has handed out. */
  datatype Snapshot = Snapshot(mem: Memory, tabs: Tables, used: set<nat>)

  // ---------------------------------------------------------------------------
  // Flags on the walk of a page
  // ---------------------------------------------------------------------------

  /** Entry flags contain the requested ones, ignoring no-execute. */
  predicate Contains(have: Flags, want: Flags) {
    && (want.present ==> have.present)
    && (want.writable ==> have.writable)
    && (want.user ==> have.user)
    && (want.huge ==> have.huge)
  }

  /** Flags an intermediate entry gets when it is created or widened. */
  function Intermediate(have: Flags, want: Flags): Flags {
    Flags(true, have.writable || want.writable, have.user || want.user, have.huge || want.huge, false)
  }

  /** The level-`l` entry on the walk of `p` points at a table and carries `fl`. */
  ghost predicate Grants(root: nat, s: Snapshot, p: Page, l: nat, fl: Flags)
    requires Shape(root, s.mem, s.tabs) && Good(p) && 2 <= l <= 4
  {
    KeyOf(p, l) in s.tabs && KeyOf(p, l - 1) in s.tabs && Contains(Slot(s.mem, s.tabs, p, l).flags, fl)
  }

  /** All entries above level `l` grant. */
  ghost predicate GrantsAbove(root: nat, s: Snapshot, p: Page, l: nat, fl: Flags)
    requires Shape(root, s.mem, s.tabs) && Good(p) && 1 <= l <= 4
  {
    && (l < 4 ==> Grants(root, s, p, 4, fl))
    && (l < 3 ==> Grants(root, s, p, 3, fl))
    && (l < 2 ==> Grants(root, s, p, 2, fl))
  }

  ghost function Lacks(root: nat, s: Snapshot, p: Page, l: nat, fl: Flags): nat
    requires Shape(root, s.mem, s.tabs) && Good(p) && 2 <= l <= 4
  {
    if Grants(root, s, p, l, fl) then 0 else 1
  }

  /** How many entries between the root and the target level are missing or lack flags. */
  ghost function Missing(root: nat, s: Snapshot, p: Page, target: nat, fl: Flags): nat
    requires Shape(root, s.mem, s.tabs) && Good(p)
  {
    Lacks(root, s, p, 4, fl) + Lacks(root, s, p, 3, fl) + (if target == 1 then Lacks(root, s, p, 2, fl) else 0)
  }

  /** Whether an entry at the target level can be reached: no huge page covers `p`
      above it and, for a 2 MB target, no 4 KB table is in the way. */
  ghost predicate Reachable(root: nat, s: Snapshot, p: Page, target: nat)
    requires Shape(root, s.mem, s.tabs) && Good(p)
  {
    var leaf := Flat(root, s.mem, s.tabs)[p];
    && (leaf.Some? ==> leaf.value.level == target)
    && (target == 2 ==> KeyOf(p, 1) !in s.tabs)
  }

  // ---------------------------------------------------------------------------
  // Preparing the walk of a page
  // ---------------------------------------------------------------------------

  /** Both trees are well formed and translate every page alike; widening survives. */
  ghost predicate TreeKept(root: nat, s: Snapshot, s': Snapshot) {
    && WellFormed(root, s.mem, s.tabs) && WellFormed(root, s'.mem, s'.tabs)
    && Flat(root, s'.mem, s'.tabs) == Flat(root, s.mem, s.tabs)
    && (Widened(root, s.mem, s.tabs) ==> Widened(root, s'.mem, s'.tabs))
  }

  /** A table with at least one present entry. */
  ghost predicate Inhabited(mem: Memory, t: nat) {
    t in mem && exists i :: 0 <= i < |mem[t]| && mem[t][i].flags.present
  }

  ghost predicate InhabitedKept(s: Snapshot, s': Snapshot) {
    forall k <- s.tabs :: Inhabited(s.mem, s.tabs[k]) ==> Inhabited(s'.mem, s.tabs[k])
  }

  /** Frames of the tables in `s'` that were not in `s`. */
  ghost function NewFrames(s: Snapshot, s': Snapshot): set<nat> {
    set k | k in s'.tabs && k !in s.tabs :: s'.tabs[k]
  }

  /** Tables were only added, each in a frame that was not in use and now is. */
  ghost predicate TablesAdded(s: Snapshot, s': Snapshot) {
    && (forall k <- s.tabs :: k in s'.tabs && s'.tabs[k] == s.tabs[k])
    && (forall k <- s'.tabs :: k in s.tabs || s'.tabs[k] !in s.used)
    && s'.used == s.used + NewFrames(s, s')
    && s'.mem.Keys == s.mem.Keys + NewFrames(s, s')
  }

  /** New tables lie on the walk of `p`, not below `target`. */
  ghost predicate AddedOn(s: Snapshot, s': Snapshot, p: Page, target: nat) {
    forall k <- s'.tabs :: k in s.tabs || (target <= k.Level() <= 3 && k == KeyOf(p, k.Level()))
  }

  /** `s'` is `s` with tables added and intermediate flags widened on the walk of
      `p` down to `target`; nothing any page translates to has changed. */
  ghost predicate Prepared(root: nat, s: Snapshot, s': Snapshot, p: Page, target: nat) {
    TreeKept(root, s, s') && TablesAdded(s, s') && AddedOn(s, s', p, target) && InhabitedKept(s, s')
  }

  lemma PreparedRefl(root: nat, s: Snapshot, p: Page, target: nat)
    requires WellFormed(root, s.mem, s.tabs)
    ensures Prepared(root, s, s, p, target)
  {
    assert NewFrames(s, s) == {};
  }

  lemma TablesAddedTrans(s0: Snapshot, s1: Snapshot, s2: Snapshot)
    requires TablesAdded(s0, s1) && TablesAdded(s1, s2)
    ensures TablesAdded(s0, s2)
  {
    forall f
      ensures f in NewFrames(s0, s2) <==> f in NewFrames(s0, s1) || f in NewFrames(s1, s2)
    {
      if f in NewFrames(s0, s1) {
        var k :| k in s1.tabs && k !in s0.tabs && f == s1.tabs[k];
        assert k in s2.tabs && s2.tabs[k] == f;
      }
      if f in NewFrames(s0, s2) {
        var k :| k in s2.tabs && k !in s0.tabs && f == s2.tabs[k];
        if k in s1.tabs { assert s1.tabs[k] == f; }
      }
    }
  }

  lemma PreparedTrans(root: nat, s0: Snapshot, s1: Snapshot, s2: Snapshot, p: Page, target: nat)
    requires Prepared(root, s0, s1, p, target) && Prepared(root, s1, s2, p, target)
    ensures Prepared(root, s0, s2, p, target)
  {
    TablesAddedTrans(s0, s1, s2);
  }

  lemma PreparedReachable(root: nat, s: Snapshot, s': Snapshot, p: Page, target: nat)
    requires Prepared(root, s, s', p, target) && Good(p) && Reachable(root, s, p, target)
    ensures Reachable(root, s', p, target)
  {
  }

  /** Everything known about the entry the walk is about to fix: the levels above
      grant, and it is either unused or points at a table. */
  ghost predicate Fixable(root: nat, s: Snapshot, p: Page, l: nat, target: nat, want: Flags) {
    && WellFormed(root, s.mem, s.tabs) && s.mem.Keys <= s.used && s.tabs.Values <= s.used
    && Good(p) && !InWindow(p) && 1 <= target < l <= 4
    && want.present && !want.huge
    && KeyOf(p, l) in s.tabs
    && GrantsAbove(root, s, p, l, want)
  }

  /** The entry above already covers whatever the fixed entry will carry. */
  lemma CoveredAbove(root: nat, s: Snapshot, p: Page, l: nat, target: nat, want: Flags)
    requires Fixable(root, s, p, l, target, want) && Widened(root, s.mem, s.tabs) && l < 4
    requires Slot(s.mem, s.tabs, p, l) == UNUSED || Slot(s.mem, s.tabs, p, l).flags.present
    ensures KeyOf(p, l + 1) in s.tabs
    ensures Covers(Slot(s.mem, s.tabs, p, l + 1).flags, Intermediate(Slot(s.mem, s.tabs, p, l).flags, want))
  {
    assert Grants(root, s, p, l + 1, want);
    EdgeCovers(root, s.mem, s.tabs, p, l + 1);
  }

  ghost function AddStep(s: Snapshot, p: Page, l: nat, f: nat, fl: Flags): Snapshot
    requires Good(p) && 2 <= l <= 4 && KeyOf(p, l) in s.tabs && s.tabs[KeyOf(p, l)] in s.mem
    requires |s.mem[s.tabs[KeyOf(p, l)]]| == ENTRIES && f !in s.mem
  {
    Snapshot(Hang(s.mem, s.tabs, KeyOf(p, l), Index(p, l), f, fl), s.tabs[KeyOf(p, l).Child(Index(p, l)) := f],
             s.used + {f})
  }

  /** A slot where a new table can be hung. */
  ghost predicate Hangable(root: nat, s: Snapshot, p: Page, l: nat, target: nat, f: nat, want: Flags) {
    && Fixable(root, s, p, l, target, want) && Slot(s.mem, s.tabs, p, l) == UNUSED
    && KeyOf(p, l - 1) !in s.tabs && f != 0 && f !in s.used
  }

  lemma HangableVacant(root: nat, s: Snapshot, p: Page, l: nat, target: nat, f: nat, want: Flags)
    requires Hangable(root, s, p, l, target, f, want)
    ensures Vacant(root, s.mem, s.tabs, KeyOf(p, l), Index(p, l), f)
    ensures KeyOf(p, l).Child(Index(p, l)) == KeyOf(p, l - 1)
  {
  }

  lemma AddStepPrepared(root: nat, s: Snapshot, p: Page, l: nat, target: nat, f: nat, want: Flags)
    requires Hangable(root, s, p, l, target, f, want)
    ensures Prepared(root, s, AddStep(s, p, l, f, Intermediate(UNUSED.flags, want)), p, target)
  {
    AddStepTree(root, s, p, l, target, f, want);
    AddStepAdded(root, s, p, l, target, f, want);
    AddStepInhabited(root, s, p, l, target, f, want);
  }

  lemma AddStepTree(root: nat, s: Snapshot, p: Page, l: nat, target: nat, f: nat, want: Flags)
    requires Hangable(root, s, p, l, target, f, want)
    ensures TreeKept(root, s, AddStep(s, p, l, f, Intermediate(UNUSED.flags, want)))
  {
    var fl := Intermediate(UNUSED.flags, want);
    HangableVacant(root, s, p, l, target, f, want);
    AddTable(root, s.mem, s.tabs, KeyOf(p, l), Index(p, l), f, fl);
    if Widened(root, s.mem, s.tabs) {
      if l < 4 {
        CoveredAbove(root, s, p, l, target, want);
        assert Above(s.mem, s.tabs, KeyOf(p, l)) == Slot(s.mem, s.tabs, p, l + 1);
      }
      AddTableWidened(root, s.mem, s.tabs, KeyOf(p, l), Index(p, l), f, fl);
    }
  }

  lemma AddStepAdded(root: nat, s: Snapshot, p: Page, l: nat, target: nat, f: nat, want: Flags)
    requires Hangable(root, s, p, l, target, f, want)
    ensures TablesAdded(s, AddStep(s, p, l, f, Intermediate(UNUSED.flags, want)))
    ensures AddedOn(s, AddStep(s, p, l, f, Intermediate(UNUSED.flags, want)), p, target)
  {
    var s' := AddStep(s, p, l, f, Intermediate(UNUSED.flags, want));
    HangableVacant(root, s, p, l, target, f, want);
    assert KeyOf(p, l - 1) in s'.tabs && s'.tabs[KeyOf(p, l - 1)] == f;
    assert NewFrames(s, s') == {f};
  }

  lemma AddStepInhabited(root: nat, s: Snapshot, p: Page, l: nat, target: nat, f: nat, want: Flags)
    requires Hangable(root, s, p, l, target, f, want)
    ensures InhabitedKept(s, AddStep(s, p, l, f, Intermediate(UNUSED.flags, want)))
  {
    var fl := Intermediate(UNUSED.flags, want);
    var s' := AddStep(s, p, l, f, fl);
    HangableVacant(root, s, p, l, target, f, want);
    forall k <- s.tabs | Inhabited(s.mem, s.tabs[k])
      ensures Inhabited(s'.mem, s.tabs[k])
    {
      var i :| 0 <= i < |s.mem[s.tabs[k]]| && s.mem[s.tabs[k]][i].flags.present;
      HangOther(root, s.mem, s.tabs, KeyOf(p, l), Index(p, l), f, fl, k, i);
      assert s'.mem[s.tabs[k]][i].flags.present;
    }
  }

  lemma AddStepUsed(root: nat, s: Snapshot, p: Page, l: nat, target: nat, f: nat, want: Flags)
    requires Hangable(root, s, p, l, target, f, want)
    ensures var s' := AddStep(s, p, l, f, Intermediate(UNUSED.flags, want));
            s'.mem.Keys <= s'.used && s'.tabs.Values <= s'.used
  {
  }

  lemma AddStepDone(root: nat, s: Snapshot, s': Snapshot, p: Page, l: nat, target: nat, f: nat, want: Flags)
    requires Hangable(root, s, p, l, target, f, want)
    requires s' == AddStep(s, p, l, f, Intermediate(UNUSED.flags, want))
    ensures Prepared(root, s, s', p, target) && s'.mem.Keys <= s'.used && s'.tabs.Values <= s'.used
    ensures Missing(root, s', p, target, want) < Missing(root, s, p, target, want)
  {
    AddStepPrepared(root, s, p, l, target, f, want);
    AddStepUsed(root, s, p, l, target, f, want);
    AddStepProgress(root, s, p, l, target, f, want);
  }

  ghost function FlagStep(s: Snapshot, p: Page, l: nat, fl: Flags): Snapshot
    requires Good(p) && 2 <= l <= 4 && KeyOf(p, l) in s.tabs && s.tabs[KeyOf(p, l)] in s.mem
    requires |s.mem[s.tabs[KeyOf(p, l)]]| == ENTRIES
  {
    s.(mem := Put(s.mem, s.tabs[KeyOf(p, l)], Index(p, l), Entry(Slot(s.mem, s.tabs, p, l).addr, fl)))
  }

  lemma FlagStepPrepared(root: nat, s: Snapshot, p: Page, l: nat, target: nat, want: Flags)
    requires Fixable(root, s, p, l, target, want) && KeyOf(p, l - 1) in s.tabs
    ensures Prepared(root, s, FlagStep(s, p, l, Intermediate(Slot(s.mem, s.tabs, p, l).flags, want)), p, target)
  {
    var e := Slot(s.mem, s.tabs, p, l);
    var fl := Intermediate(e.flags, want);
    var s' := FlagStep(s, p, l, fl);
    PathBelow(root, s.mem, s.tabs, p, l);
    SetFlags(root, s.mem, s.tabs, p, l, fl);
    if Widened(root, s.mem, s.tabs) {
      if l < 4 { CoveredAbove(root, s, p, l, target, want); }
      SetFlagsWidened(root, s.mem, s.tabs, p, l, fl);
    }
    assert NewFrames(s, s') == {};
    FlagStepInhabited(root, s, p, l, fl);
  }

  lemma FlagStepInhabited(root: nat, s: Snapshot, p: Page, l: nat, fl: Flags)
    requires Shape(root, s.mem, s.tabs) && Good(p) && 2 <= l <= 4 && KeyOf(p, l) in s.tabs && fl.present
    ensures InhabitedKept(s, FlagStep(s, p, l, fl))
  {
    var e := Entry(Slot(s.mem, s.tabs, p, l).addr, fl);
    var s' := FlagStep(s, p, l, fl);
    forall k <- s.tabs | Inhabited(s.mem, s.tabs[k])
      ensures Inhabited(s'.mem, s.tabs[k])
    {
      var i :| 0 <= i < |s.mem[s.tabs[k]]| && s.mem[s.tabs[k]][i].flags.present;
      PutOther(root, s.mem, s.tabs, KeyOf(p, l), Index(p, l), e, k, i);
      assert s'.mem[s.tabs[k]][i].flags.present;
    }
  }

  /** Fixing the topmost faulty entry makes it grant and disturbs no other level,
      so the count of faulty entries falls. */
  lemma AddStepProgress(root: nat, s: Snapshot, p: Page, l: nat, target: nat, f: nat, want: Flags)
    requires Hangable(root, s, p, l, target, f, want)
    requires var s' := AddStep(s, p, l, f, Intermediate(UNUSED.flags, want)); Shape(root, s'.mem, s'.tabs)
    ensures var s' := AddStep(s, p, l, f, Intermediate(UNUSED.flags, want));
            Missing(root, s', p, target, want) < Missing(root, s, p, target, want)
  {
    AddStepLevel(root, s, p, l, target, f, want, 2);
    AddStepLevel(root, s, p, l, target, f, want, 3);
    AddStepLevel(root, s, p, l, target, f, want, 4);
  }

  lemma AddStepLevel(root: nat, s: Snapshot, p: Page, l: nat, target: nat, f: nat, want: Flags, m: nat)
    requires Hangable(root, s, p, l, target, f, want) && 2 <= m <= 4
    requires var s' := AddStep(s, p, l, f, Intermediate(UNUSED.flags, want)); Shape(root, s'.mem, s'.tabs)
    ensures var s' := AddStep(s, p, l, f, Intermediate(UNUSED.flags, want));
            if m == l then !Grants(root, s, p, m, want) && Grants(root, s', p, m, want)
            else Grants(root, s', p, m, want) == Grants(root, s, p, m, want)
  {
    Chain(s.tabs, p);
    HangableVacant(root, s, p, l, target, f, want);
    if KeyOf(p, m) in s.tabs {
      HangOther(root, s.mem, s.tabs, KeyOf(p, l), Index(p, l), f, Intermediate(UNUSED.flags, want), KeyOf(p, m),
                Index(p, m));
    }
  }

  lemma FlagStepProgress(root: nat, s: Snapshot, p: Page, l: nat, target: nat, want: Flags)
    requires Fixable(root, s, p, l, target, want) && KeyOf(p, l - 1) in s.tabs
    requires !Contains(Slot(s.mem, s.tabs, p, l).flags, want)
    requires Shape(root, FlagStep(s, p, l, Intermediate(Slot(s.mem, s.tabs, p, l).flags, want)).mem, s.tabs)
    ensures var s' := FlagStep(s, p, l, Intermediate(Slot(s.mem, s.tabs, p, l).flags, want));
            Missing(root, s', p, target, want) < Missing(root, s, p, target, want)
  {
    FlagStepLevel(root, s, p, l, target, want, 2);
    FlagStepLevel(root, s, p, l, target, want, 3);
    FlagStepLevel(root, s, p, l, target, want, 4);
  }

  lemma FlagStepLevel(root: nat, s: Snapshot, p: Page, l: nat, target: nat, want: Flags, m: nat)
    requires Fixable(root, s, p, l, target, want) && KeyOf(p, l - 1) in s.tabs && 2 <= m <= 4
    requires Shape(root, FlagStep(s, p, l, Intermediate(Slot(s.mem, s.tabs, p, l).flags, want)).mem, s.tabs)
    ensures var s' := FlagStep(s, p, l, Intermediate(Slot(s.mem, s.tabs, p, l).flags, want));
            if m == l then Grants(root, s', p, m, want)
            else Grants(root, s', p, m, want) == Grants(root, s, p, m, want)
  {
    var e := Entry(Slot(s.mem, s.tabs, p, l).addr, Intermediate(Slot(s.mem, s.tabs, p, l).flags, want));
    if KeyOf(p, m) in s.tabs {
      PutOther(root, s.mem, s.tabs, KeyOf(p, l), Index(p, l), e, KeyOf(p, m), Index(p, m));
    }
  }

  // ---------------------------------------------------------------------------
  // The address space
  // ---------------------------------------------------------------------------

  function PhysicalOf(a: Access): Option<nat> {
    match a
    case Fault => None
    case Mapped(pa, _, _, _) => Some(pa)
  }

  class AddressSpace {
    const root: nat
    var mem: Memory
    var used: set<nat>
    ghost var tabs: Tables

    ghost predicate Valid()
      reads this
    {
      && WellFormed(root, mem, tabs)
      && mem.Keys <= used
      && tabs.Values <= used
    }

    ghost function Now(): Snapshot
      reads this
    {
      Snapshot(mem, tabs, used)
    }

    /** The whole translation of this address space. */
    ghost function Translations(): FlatMap
      requires Valid()
      reads this
    {
      Flat(root, mem, tabs)
    }

    /** `table_for_addr`: the table the self-map shows for `v` at level `l`. */
    method TableAt(v: nat, l: nat) returns (t: nat)
      requires Valid() && 1 <= l <= 4 && KeyOf(PageAt(v), l) in tabs
      ensures t == tabs[KeyOf(PageAt(v), l)]
    {
      SelfMapReachesTable(root, mem, tabs, v, l);
      t := HwWalk(root, mem, TableAddr(v, l)).pa;
    }

    /** What an entry found at level `l` says about the page it was found for. */
    ghost predicate Says(e: Entry, l: nat, p: Page)
      requires Valid() && Good(p) && 1 <= l <= 4
      reads this
    {
      var leaf := Translations()[p];
      if l == 1 then leaf == LeafIf(e, 1)
      else if !e.flags.present then leaf == None && e == UNUSED && KeyOf(p, l - 1) !in tabs
      else if e.flags.huge then l < 4 && leaf == Some(Leaf(e, l)) && KeyOf(p, l - 1) !in tabs
      else KeyOf(p, l - 1) in tabs && e.addr == tabs[KeyOf(p, l - 1)] && e.addr != 0
    }

    lemma LeafAt(v: nat, l: nat)
      requires Valid() && !InWindow(PageAt(v)) && 1 <= l <= 4 && KeyOf(PageAt(v), l) in tabs
      ensures Says(Slot(mem, tabs, PageAt(v), l), l, PageAt(v))
    {
      Chain(tabs, PageAt(v));
      if l > 1 {
        PathBelow(root, mem, tabs, PageAt(v), l);
      }
    }

    /** Read the entry for `v` in its level-`l` table through the self-map. */
    method ReadEntry(v: nat, l: nat) returns (e: Entry)
      requires Valid() && !InWindow(PageAt(v)) && 1 <= l <= 4 && KeyOf(PageAt(v), l) in tabs
      ensures e == Slot(mem, tabs, PageAt(v), l) && Says(e, l, PageAt(v))
    {
      LeafAt(v, l);
      var t := TableAt(v, l);
      e := mem[t][Index(PageAt(v), l)];
    }

    /** `is_mapped`: true exactly when the address translates, huge pages included. */
    method IsMapped(v: nat) returns (mapped: bool)
      requires Valid() && !InWindow(PageAt(v))
      ensures mapped <==> Translations()[PageAt(v)].Some?
      ensures mapped <==> HwWalk(root, mem, v).Mapped?
    {
      HwMatchesLeaf(root, mem, tabs, v);
      var level := 4;
      while true
        invariant 1 <= level <= 4 && KeyOf(PageAt(v), level) in tabs
        decreases level
      {
        var e := ReadEntry(v, level);
        if !e.flags.present {
          return false;
        }
        if (level == 2 || level == 3) && e.flags.huge {
          return true;
        }
        if level == 1 {
          return true;
        }
        level := level - 1;
      }
    }

    /** What a walk that found leaf `leaf` must return for `v`. */
    ghost predicate Resolves(r: Option<nat>, leaf: Option<Leaf>, v: nat) {
      match leaf
      case None => r == None
      case Some(leaf) => 1 <= leaf.level <= 3 && r == Some(LeafAddress(leaf.entry, leaf.level, v))
    }

    /** `virtual_address_to_physical`: the processor's translation; `None` is the panic. */
    method VirtualToPhysical(v: nat) returns (r: Option<nat>)
      requires Valid() && !InWindow(PageAt(v))
      ensures r == PhysicalOf(HwWalk(root, mem, v))
    {
      HwMatchesLeaf(root, mem, tabs, v);
      r := WalkTables(v);
    }

    /** The body of `virtual_address_to_physical`: PML4 and PDPT, with the 1 GB case. */
    method WalkTables(v: nat) returns (r: Option<nat>)
      requires Valid() && !InWindow(PageAt(v))
      ensures Resolves(r, Translations()[PageAt(v)], v)
    {
      hide Linked, Rooted, LeafOf, PageAt;
      var e4 := ReadEntry(v, 4);
      if !e4.flags.present {
        return None;
      }
      var e3 := ReadEntry(v, 3);
      if !e3.flags.present {
        return None;
      }
      if e3.flags.huge {
        return Some(e3.addr / GIANT_PAGE_SIZE * GIANT_PAGE_SIZE + v % GIANT_PAGE_SIZE);
      }
      r := WalkLowerTables(v);
    }

    /** PD and PT, with the 2 MB case. */
    method WalkLowerTables(v: nat) returns (r: Option<nat>)
      requires Valid() && !InWindow(PageAt(v)) && KeyOf(PageAt(v), 2) in tabs
      ensures Resolves(r, Translations()[PageAt(v)], v)
    {
      hide Shape, Linked, Rooted, LeafOf, PageAt;
      var e2 := ReadEntry(v, 2);
      if !e2.flags.present {
        return None;
      }
      if e2.flags.huge {
        return Some(e2.addr / HUGE_PAGE_SIZE * HUGE_PAGE_SIZE + v % HUGE_PAGE_SIZE);
      }
      var e1 := ReadEntry(v, 1);
      if !e1.flags.present {
        return None;
      }
      return Some(e1.addr + v % PAGE_SIZE);
    }

    /** `leaf_page_table_entry`: the first entry from the top that is unused, is a
        2 MB page, lacks the flags, or is at level 1. */
    method LeafEntry(v: nat, fl: Flags) returns (t: nat, i: nat, level: nat)
      requires Valid() && !InWindow(PageAt(v)) && fl.present && !fl.huge
      requires var leaf := Translations()[PageAt(v)]; leaf.Some? ==> leaf.value.level != 3
      ensures 1 <= level <= 4 && KeyOf(PageAt(v), level) in tabs
      ensures t == tabs[KeyOf(PageAt(v), level)] && i == Index(PageAt(v), level)
      ensures GrantsAbove(root, Now(), PageAt(v), level, fl)
      ensures var e := Slot(mem, tabs, PageAt(v), level);
              level == 1 || e.addr == 0 || (level == 2 && e.flags.huge) || !Contains(e.flags, fl)
    {
      level := 4;
      while true
        invariant 1 <= level <= 4 && KeyOf(PageAt(v), level) in tabs
        invariant GrantsAbove(root, Now(), PageAt(v), level, fl)
        decreases level
      {
        LeafAt(v, level);
        t := TableAt(v, level);
        i := Index(PageAt(v), level);
        var e := mem[t][i];
        if e.addr == 0 {
          return;
        }
        if level == 1 {
          return;
        }
        if level == 2 && e.flags.huge {
          return;
        }
        if !Contains(e.flags, fl) {
          return;
        }
        assert Grants(root, Now(), PageAt(v), level, fl);
        level := level - 1;
      }
    }

    /** A frame from the allocator: aligned, non-zero, not in use. */
    method AllocateFrame() returns (f: nat)
      modifies this`used
      ensures f !in old(used) && f != 0 && f % PAGE_SIZE == 0
      ensures used == old(used) + {f}
    {
      FreshFrameExists(used);
      f :| f !in used && f != 0 && f % PAGE_SIZE == 0;
      used := used + {f};
    }

    /** One round of `page_table_entry`: create or widen the entry at `level`. */
    method FixEntry(v: nat, level: nat, target: nat, t: nat, i: nat, fl: Flags)
      requires Valid() && !InWindow(PageAt(v)) && 1 <= target < level <= 4 && fl.present && !fl.huge
      requires Reachable(root, Now(), PageAt(v), target) && KeyOf(PageAt(v), level) in tabs
      requires t == tabs[KeyOf(PageAt(v), level)] && i == Index(PageAt(v), level)
      requires GrantsAbove(root, Now(), PageAt(v), level, fl)
      requires var e := Slot(mem, tabs, PageAt(v), level); e.addr == 0 || !Contains(e.flags, fl)
      modifies this
      ensures Valid() && Prepared(root, old(Now()), Now(), PageAt(v), target)
      ensures Missing(root, Now(), PageAt(v), target, fl) < old(Missing(root, Now(), PageAt(v), target, fl))
    {
      LeafAt(v, level);
      var e := mem[t][i];
      if e.addr == 0 {
        AddEntry(v, level, target, t, i, fl);
      } else {
        WidenEntry(v, level, target, t, i, fl);
      }
    }

    /** Hang a fresh zeroed table in an unused entry. */
    method AddEntry(v: nat, level: nat, target: nat, t: nat, i: nat, fl: Flags)
      requires Valid() && Fixable(root, Now(), PageAt(v), level, target, fl)
      requires t == tabs[KeyOf(PageAt(v), level)] && i == Index(PageAt(v), level)
      requires mem[t][i] == UNUSED && KeyOf(PageAt(v), level - 1) !in tabs
      modifies this
      ensures Valid() && Prepared(root, old(Now()), Now(), PageAt(v), target)
      ensures Missing(root, Now(), PageAt(v), target, fl) < old(Missing(root, Now(), PageAt(v), target, fl))
    {
      ghost var s, p := Now(), PageAt(v);
      var entryFlags := Intermediate(mem[t][i].flags, fl);
      var f := AllocateFrame();
      mem := Put(mem[f := ZeroTable()], t, i, Entry(f, entryFlags));
      tabs := tabs[KeyOf(p, level).Child(i) := f];
      AddStepDone(root, s, Now(), p, level, target, f, fl);
    }

    /** Add the requested flags to an entry that points at a table. */
    method WidenEntry(v: nat, level: nat, target: nat, t: nat, i: nat, fl: Flags)
      requires Valid() && Fixable(root, Now(), PageAt(v), level, target, fl)
      requires t == tabs[KeyOf(PageAt(v), level)] && i == Index(PageAt(v), level)
      requires KeyOf(PageAt(v), level - 1) in tabs && !Contains(mem[t][i].flags, fl)
      modifies this
      ensures Valid() && Prepared(root, old(Now()), Now(), PageAt(v), target)
      ensures Missing(root, Now(), PageAt(v), target, fl) < old(Missing(root, Now(), PageAt(v), target, fl))
    {
      ghost var s, p := Now(), PageAt(v);
      var e := mem[t][i];
      var entryFlags := Intermediate(e.flags, fl);
      FlagStepPrepared(root, s, p, level, target, fl);
      FlagStepProgress(root, s, p, level, target, fl);
      mem := Put(mem, t, i, Entry(e.addr, entryFlags));
      assert Now() == FlagStep(s, p, level, entryFlags);
    }

    /** `page_table_entry`: get or create the entry for `v` at the target level. */
    method EntryFor(v: nat, target: nat, fl: Flags) returns (t: nat, i: nat)
      requires Valid() && !InWindow(PageAt(v)) && 1 <= target <= 2 && fl.present && !fl.huge
      requires Reachable(root, Now(), PageAt(v), target)
      modifies this
      ensures Valid() && Prepared(root, old(Now()), Now(), PageAt(v), target)
      ensures KeyOf(PageAt(v), target) in tabs && t == tabs[KeyOf(PageAt(v), target)] && i == Index(PageAt(v), target)
      ensures GrantsAbove(root, Now(), PageAt(v), target, fl)
    {
      ghost var p := PageAt(v);
      PreparedRefl(root, Now(), p, target);
      while true
        invariant Valid() && Prepared(root, old(Now()), Now(), p, target)
        invariant Reachable(root, Now(), p, target)
        decreases Missing(root, Now(), p, target, fl)
      {
        var level;
        t, i, level := LeafEntry(v, fl);
        if level == target {
          return;
        }
        ghost var s := Now();
        LeafAt(v, level);
        FixEntry(v, level, target, t, i, fl);
        PreparedReachable(root, s, Now(), p, target);
        PreparedTrans(root, old(Now()), s, Now(), p, target);
      }
    }
  }

  /** The frame numbers never run out. */
  lemma FreshFrameExists(s: set<nat>)
    ensures exists f: nat :: f !in s && f != 0 && f % PAGE_SIZE == 0
  {
    var b := UpperBound(s);
    var f := b * PAGE_SIZE + PAGE_SIZE;
    assert f !in s && f % PAGE_SIZE == 0;
  }

  ghost function UpperBound(s: set<nat>): (b: nat)
    ensures forall x <- s :: x <= b
  {
    if s == {} then 0
    else
      var x :| x in s;
      var b := UpperBound(s - {x});
      assert forall y <- s :: y == x || y in s - {x};
      if x <= b then b else x
  }
}
