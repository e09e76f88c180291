/** Unmapping pages and collecting the tables that become empty (`memory/paging.rs`). */
module PageUnmapping {
  import opened Common
  import opened Paging
  import opened TableTree
  import opened TableEdit
  import opened AddressSpaces
  import opened PageMapping

  // ---------------------------------------------------------------------------
  // What unmapping means on the flat map
  // ---------------------------------------------------------------------------

  /** The leaf translating `q` also serves page `p`: the same 4 KB page, or the same
      2 MB page. */
  predicate Served(leaf: Option<Leaf>, p: Page, q: Page) {
    leaf.Some? && 1 <= leaf.value.level <= 3 && SameSlot(p, q, leaf.value.level)
  }

  /** Unmapping page `p` unmaps everything its leaf serves. */
  ghost function UnmapOne(flat: FlatMap, p: Page): FlatMap {
    imap q: Page | q in flat :: if Served(flat[q], p, q) then None else flat[q]
  }

  /** Some page of the run is served by the leaf of `q`. */
  ghost predicate Hit(leaf: Option<Leaf>, q: Page, first: nat, n: nat) {
    exists p :: Good(p) && InRun(p, first, n) && Served(leaf, p, q)
  }

  /** The flat map after unmapping a run of pages. A 2 MB page goes as a whole, even
      when the run only touches part of it. */
  ghost function UnmapRun(flat: FlatMap, first: nat, n: nat): FlatMap {
    imap q: Page | q in flat :: if Hit(flat[q], q, first, n) then None else flat[q]
  }

  lemma UnmapRunStep(flat: FlatMap, first: nat, j: nat)
    requires first + j < PAGES
    ensures UnmapRun(flat, first, j + 1) == UnmapOne(UnmapRun(flat, first, j), PageOf(first + j))
  {
    var p := PageOf(first + j);
    forall q | q in flat
      ensures Hit(flat[q], q, first, j + 1) <==> Hit(flat[q], q, first, j) || Served(flat[q], p, q)
    {
      if Hit(flat[q], q, first, j + 1) && !Hit(flat[q], q, first, j) {
        var r :| Good(r) && InRun(r, first, j + 1) && Served(flat[q], r, q);
        assert !InRun(r, first, j);
        NumberInjective(p, r);
      }
      if Served(flat[q], p, q) { assert InRun(p, first, j + 1); }
      if Hit(flat[q], q, first, j) {
        var r :| Good(r) && InRun(r, first, j) && Served(flat[q], r, q);
        assert InRun(r, first, j + 1);
      }
    }
  }

  /** Over a run with 4 KB leaves only, exactly the pages of the run are unmapped. */
  lemma UnmapRunSmall(flat: FlatMap, first: nat, n: nat)
    requires forall q :: q in flat <==> Good(q)
    requires forall q <- flat :: flat[q].Some? ==>
               1 <= flat[q].value.level <= 3 && (flat[q].value.level != 1 ==> !Hit(flat[q], q, first, n))
    ensures UnmapRun(flat, first, n) == imap q: Page | q in flat :: if InRun(q, first, n) then None else flat[q]
  {
    forall q | q in flat && flat[q].Some? && flat[q].value.level == 1
      ensures Hit(flat[q], q, first, n) <==> InRun(q, first, n)
    {
      if InRun(q, first, n) { assert Served(flat[q], q, q); }
      assert forall p :: Served(flat[q], p, q) ==> p == q;
    }
    assert forall q | q in flat && InRun(q, first, n) && flat[q].Some? :: Served(flat[q], q, q);
  }

  /** Pages that share a slot at the level of one's leaf share the leaf. */
  lemma LeafShared(root: nat, mem: Memory, tabs: Tables, p: Page, q: Page)
    requires WellFormed(root, mem, tabs) && Good(p) && Good(q)
    requires Served(LeafOf(root, mem, tabs, q), p, q)
    ensures LeafOf(root, mem, tabs, p) == LeafOf(root, mem, tabs, q)
  {
    Chain(tabs, p);
    Chain(tabs, q);
    var l := LeafOf(root, mem, tabs, q).value.level;
    if l == 3 { ShallowLeaf(root, mem, tabs, p, 3); }
    if l == 2 { ShallowLeaf(root, mem, tabs, p, 2); }
  }

  /** A level that shows a huge leaf, or no entry, has no table below. */
  lemma ShallowLeaf(root: nat, mem: Memory, tabs: Tables, p: Page, l: nat)
    requires WellFormed(root, mem, tabs) && Good(p) && 2 <= l <= 3 && KeyOf(p, l) in tabs
    ensures KeyOf(p, l - 1) in tabs <==> Slot(mem, tabs, p, l).flags.present && !Slot(mem, tabs, p, l).flags.huge
  {
    var k := KeyOf(p, l);
    assert k.Child(Index(p, l)) == KeyOf(p, l - 1);
    assert EntryOk(mem[tabs[k]][Index(p, l)], k, Index(p, l), tabs);
  }

  // ---------------------------------------------------------------------------
  // What collection does to the set of tables
  // ---------------------------------------------------------------------------

  /** Tables were only dropped, and exactly their frames returned. */
  ghost predicate TablesDropped(s: Snapshot, s': Snapshot) {
    && (forall k <- s'.tabs :: k in s.tabs && s'.tabs[k] == s.tabs[k])
    && s'.used == s.used - NewFrames(s', s)
  }

  /** Dropped tables lie on the walk of `p`, below the root. */
  ghost predicate DroppedOn(s: Snapshot, s': Snapshot, p: Page) {
    forall k <- s.tabs :: k in s'.tabs || (k.Level() <= 3 && k == KeyOf(p, k.Level()))
  }

  /** No remaining table below the root lost its last entry, except perhaps the one
      at level `l` on the walk of `p`. */
  ghost predicate StillInhabited(s: Snapshot, s': Snapshot, p: Page, l: nat) {
    forall k <- s'.tabs ::
      k in s.tabs && k.Level() <= 3 && !(1 <= l <= 3 && k == KeyOf(p, l)) && Inhabited(s.mem, s.tabs[k]) ==>
      Inhabited(s'.mem, s'.tabs[k])
  }

  /** After collection every table left on the walk of `p` below the root has an entry. */
  ghost predicate WalkInhabited(s: Snapshot, p: Page) {
    forall k <- s.tabs :: k.Level() <= 3 && k == KeyOf(p, k.Level()) ==> Inhabited(s.mem, s.tabs[k])
  }

  /** Tables collected after a leaf of `p` was cleared, up to but excluding level `l`. */
  ghost predicate Collected(root: nat, s: Snapshot, s': Snapshot, p: Page, l: nat) {
    && TreeKept(root, s, s')
    && TablesDropped(s, s') && DroppedOn(s, s', p) && StillInhabited(s, s', p, l)
    && s'.mem.Keys <= s.mem.Keys
  }

  ghost function DropStep(s: Snapshot, c: Key): Snapshot
    requires c in s.tabs && !c.PML4? && c.Parent() in s.tabs && s.tabs[c.Parent()] in s.mem
    requires c.Last() < |s.mem[s.tabs[c.Parent()]]|
  {
    Snapshot(Prune(s.mem, s.tabs, c), s.tabs - {c}, s.used - {s.tabs[c]})
  }

  lemma DropStepTree(root: nat, s: Snapshot, c: Key)
    requires Droppable(root, s.mem, s.tabs, c)
    ensures TreeKept(root, s, DropStep(s, c))
  {
    DropTable(root, s.mem, s.tabs, c);
    if Widened(root, s.mem, s.tabs) {
      DropTableWidened(root, s.mem, s.tabs, c);
    }
  }

  /** Dropping a table can empty its parent, and no other table. */
  lemma DropStepInhabited(root: nat, s: Snapshot, p: Page, l: nat, k: Key)
    requires Good(p) && 1 <= l <= 3 && Droppable(root, s.mem, s.tabs, KeyOf(p, l)) && k in s.tabs && k != KeyOf(p, l)
    requires k != KeyOf(p, l + 1) && Inhabited(s.mem, s.tabs[k])
    ensures Inhabited(DropStep(s, KeyOf(p, l)).mem, s.tabs[k])
  {
    var c := KeyOf(p, l);
    var i :| 0 <= i < |s.mem[s.tabs[k]]| && s.mem[s.tabs[k]][i].flags.present;
    PruneOther(root, s.mem, s.tabs, c, k, i);
    assert c.Parent() == KeyOf(p, l + 1);
    assert DropStep(s, c).mem[s.tabs[k]][i].flags.present;
  }

  lemma DropStepDropped(root: nat, s0: Snapshot, s: Snapshot, c: Key)
    requires TablesDropped(s0, s) && Droppable(root, s.mem, s.tabs, c)
    ensures TablesDropped(s0, DropStep(s, c))
  {
    var s' := DropStep(s, c);
    forall f
      ensures f in NewFrames(s', s0) <==> f in NewFrames(s, s0) || f == s.tabs[c]
    {
      if f in NewFrames(s, s0) {
        var k :| k in s0.tabs && k !in s.tabs && f == s0.tabs[k];
        assert k !in s'.tabs;
      }
      if f == s.tabs[c] { assert c in s0.tabs && c !in s'.tabs && s0.tabs[c] == f; }
      if f in NewFrames(s', s0) {
        var k :| k in s0.tabs && k !in s'.tabs && f == s0.tabs[k];
        assert k in s.tabs ==> k == c;
      }
    }
  }

  lemma DropStepStill(root: nat, s0: Snapshot, s: Snapshot, p: Page, l: nat)
    requires Good(p) && 1 <= l <= 3 && Droppable(root, s.mem, s.tabs, KeyOf(p, l))
    requires TablesDropped(s0, s) && StillInhabited(s0, s, p, l)
    ensures StillInhabited(s0, DropStep(s, KeyOf(p, l)), p, l + 1)
  {
    hide Linked, Inhabited, IsEmptyTable;
    var s' := DropStep(s, KeyOf(p, l));
    forall k <- s'.tabs | k.Level() <= 3 && !(1 <= l + 1 <= 3 && k == KeyOf(p, l + 1)) && Inhabited(s0.mem, s0.tabs[k])
      ensures Inhabited(s'.mem, s'.tabs[k])
    {
      DropStepInhabited(root, s, p, l, k);
    }
  }

  lemma DropStepCollected(root: nat, s0: Snapshot, s: Snapshot, p: Page, l: nat)
    requires Good(p) && 1 <= l <= 3 && Droppable(root, s.mem, s.tabs, KeyOf(p, l))
    requires Collected(root, s0, s, p, l)
    ensures Collected(root, s0, DropStep(s, KeyOf(p, l)), p, l + 1)
  {
    hide Widened, Linked, StillInhabited, TablesDropped, Flat, IsEmptyTable, TreeKept;
    DropStepTree(root, s, KeyOf(p, l));
    TreeKeptTrans(root, s0, s, DropStep(s, KeyOf(p, l)));
    DropStepDropped(root, s0, s, KeyOf(p, l));
    DropStepStill(root, s0, s, p, l);
  }

  lemma TreeKeptTrans(root: nat, s0: Snapshot, s1: Snapshot, s2: Snapshot)
    requires TreeKept(root, s0, s1) && TreeKept(root, s1, s2)
    ensures TreeKept(root, s0, s2)
  {
    hide Widened, Linked, Flat, Shape, Rooted;
  }

  lemma CollectedRefl(root: nat, s: Snapshot, p: Page)
    requires WellFormed(root, s.mem, s.tabs)
    ensures Collected(root, s, s, p, 1)
  {
    assert NewFrames(s, s) == {};
  }

  /** If the level-`l` table on the walk has an entry, so have all above it. */
  lemma RestInhabited(root: nat, s: Snapshot, p: Page, l: nat)
    requires WellFormed(root, s.mem, s.tabs) && Good(p) && 1 <= l <= 3
    requires KeyOf(p, l) in s.tabs && Inhabited(s.mem, s.tabs[KeyOf(p, l)])
    requires forall m :: 1 <= m < l ==> KeyOf(p, m) !in s.tabs
    ensures WalkInhabited(s, p)
  {
    Chain(s.tabs, p);
    if l < 2 { ParentInhabited(root, s, p, 1); }
    if l < 3 { ParentInhabited(root, s, p, 2); }
    forall k <- s.tabs | k.Level() <= 3 && k == KeyOf(p, k.Level())
      ensures Inhabited(s.mem, s.tabs[k])
    {
      assert k.Level() == 1 || k.Level() == 2 || k.Level() == 3;
    }
  }

  lemma ParentInhabited(root: nat, s: Snapshot, p: Page, l: nat)
    requires WellFormed(root, s.mem, s.tabs) && Good(p) && 1 <= l <= 3 && KeyOf(p, l) in s.tabs
    ensures KeyOf(p, l + 1) in s.tabs && Inhabited(s.mem, s.tabs[KeyOf(p, l + 1)])
  {
    PathAbove(root, s.mem, s.tabs, p, l);
    assert s.mem[s.tabs[KeyOf(p, l + 1)]][Index(p, l + 1)].flags.present;
  }

  // ---------------------------------------------------------------------------
  // The collection loop
  // ---------------------------------------------------------------------------

  /** Whether a table has no present entry. */
  method IsEmpty(t: Table) returns (empty: bool)
    ensures empty <==> IsEmptyTable(t)
  {
    var i := 0;
    while i < |t|
      invariant 0 <= i <= |t|
      invariant forall j :: 0 <= j < i ==> !t[j].flags.present
    {
      if t[i].flags.present {
        assert t[i] in t;
        return false;
      }
      i := i + 1;
    }
    return true;
  }

  /** One round: drop the empty table at level `l`. */
  method DropTableAt(a: AddressSpace, v: nat, l: nat)
    requires a.Valid() && 1 <= l <= 3 && !InWindow(PageAt(v))
    requires Droppable(a.root, a.mem, a.tabs, KeyOf(PageAt(v), l))
    modifies a
    ensures a.Valid() && a.Now() == DropStep(old(a.Now()), KeyOf(PageAt(v), l))
  {
    hide Widened, LeafOf, PageAt, Rooted;
    ghost var c := KeyOf(PageAt(v), l);
    PathAbove(a.root, a.mem, a.tabs, PageAt(v), l);
    DropStepTree(a.root, a.Now(), c);
    assert c.Parent() == KeyOf(PageAt(v), l + 1) && c.Last() == Index(PageAt(v), l + 1);
    var parent := a.TableAt(v, l + 1);
    var i := Index(PageAt(v), l + 1);
    var child := a.mem[parent][i].addr;
    a.mem := Put(a.mem, parent, i, UNUSED) - {child};
    a.used := a.used - {child};
    a.tabs := a.tabs - {c};
  }

  /** Stopping at a table with an entry leaves no empty table on the walk. */
  lemma CollectedStop(root: nat, s: Snapshot, s': Snapshot, p: Page, l: nat)
    requires Collected(root, s, s', p, l) && Good(p) && 1 <= l <= 3
    requires KeyOf(p, l) in s'.tabs && Inhabited(s'.mem, s'.tabs[KeyOf(p, l)])
    requires forall m :: 1 <= m < l ==> KeyOf(p, m) !in s'.tabs
    ensures Collected(root, s, s', p, 4) && WalkInhabited(s', p)
  {
    hide Widened, Linked, TablesDropped, DroppedOn;
    RestInhabited(root, s', p, l);
  }

  lemma CollectedAll(root: nat, s: Snapshot, s': Snapshot, p: Page)
    requires Collected(root, s, s', p, 4) && forall m :: 1 <= m < 4 ==> KeyOf(p, m) !in s'.tabs
    ensures WalkInhabited(s', p)
  {
    hide Collected;
  }

  /** The second half of `unmap_and_gc`: drop empty tables from the bottom up. */
  method CollectTables(a: AddressSpace, v: nat)
    requires a.Valid() && !InWindow(PageAt(v)) && KeyOf(PageAt(v), 1) in a.tabs
    modifies a
    ensures a.Valid() && Collected(a.root, old(a.Now()), a.Now(), PageAt(v), 4)
    ensures WalkInhabited(a.Now(), PageAt(v))
  {
    hide Widened, Linked, Rooted, Collected, PageAt, LeafOf, WalkInhabited;
    ghost var s, p := a.Now(), PageAt(v);
    var level := 1;
    CollectedRefl(a.root, s, p);
    while level <= 3
      invariant 1 <= level <= 4 && a.Valid()
      invariant Collected(a.root, s, a.Now(), p, level)
      invariant KeyOf(p, level) in a.tabs
      invariant forall m :: 1 <= m < level ==> KeyOf(p, m) !in a.tabs
    {
      var t := a.TableAt(v, level);
      var empty := IsEmpty(a.mem[t]);
      if !empty {
        assert Inhabited(a.mem, t);
        CollectedStop(a.root, s, a.Now(), p, level);
        return;
      }
      DropStepCollected(a.root, s, a.Now(), p, level);
      Chain(a.tabs, p);
      DropTableAt(a, v, level);
      level := level + 1;
    }
    CollectedAll(a.root, s, a.Now(), p);
  }

  // ---------------------------------------------------------------------------
  // Clearing the leaf
  // ---------------------------------------------------------------------------

  /** The 4 KB leaf of `p` is gone, nothing else about the tree changed. */
  ghost predicate LeafCleared(root: nat, s: Snapshot, s': Snapshot, p: Page) {
    && WellFormed(root, s.mem, s.tabs) && WellFormed(root, s'.mem, s'.tabs)
    && Flat(root, s'.mem, s'.tabs) == Flat(root, s.mem, s.tabs)[p := None]
    && (Widened(root, s.mem, s.tabs) ==> Widened(root, s'.mem, s'.tabs))
    && s'.tabs == s.tabs && s'.used == s.used && s'.mem.Keys == s.mem.Keys
    && StillInhabited(s, s', p, 1)
  }

  lemma ClearStep(root: nat, s: Snapshot, s': Snapshot, p: Page)
    requires WellFormed(root, s.mem, s.tabs) && Good(p) && KeyOf(p, 1) in s.tabs
    requires s' == s.(mem := Put(s.mem, s.tabs[KeyOf(p, 1)], p.i1, UNUSED))
    ensures LeafCleared(root, s, s', p)
  {
    hide Linked;
    SetLeaf(root, s.mem, s.tabs, p, UNUSED);
    Chain(s.tabs, p);
    if Widened(root, s.mem, s.tabs) { SetLeafWidened(root, s.mem, s.tabs, p, UNUSED); }
    forall k <- s.tabs | k != KeyOf(p, 1) && Inhabited(s.mem, s.tabs[k])
      ensures Inhabited(s'.mem, s.tabs[k])
    {
      var i :| 0 <= i < |s.mem[s.tabs[k]]| && s.mem[s.tabs[k]][i].flags.present;
      PutOther(root, s.mem, s.tabs, KeyOf(p, 1), p.i1, UNUSED, k, i);
      assert s'.mem[s.tabs[k]][i].flags.present;
    }
  }

  /** The 2 MB leaf around `p` is gone, nothing else about the tree changed. */
  ghost predicate SpanCleared(root: nat, s: Snapshot, s': Snapshot, p: Page) {
    && WellFormed(root, s.mem, s.tabs) && WellFormed(root, s'.mem, s'.tabs)
    && Flat(root, s'.mem, s'.tabs) == SetSpan(Flat(root, s.mem, s.tabs), p, None)
    && (Widened(root, s.mem, s.tabs) ==> Widened(root, s'.mem, s'.tabs))
    && s'.tabs == s.tabs && s'.used == s.used && s'.mem.Keys == s.mem.Keys
  }

  lemma ClearSpanStep(root: nat, s: Snapshot, s': Snapshot, p: Page)
    requires WellFormed(root, s.mem, s.tabs) && Good(p) && KeyOf(p, 2) in s.tabs && KeyOf(p, 1) !in s.tabs
    requires s' == s.(mem := Put(s.mem, s.tabs[KeyOf(p, 2)], p.i2, UNUSED))
    ensures SpanCleared(root, s, s', p)
  {
    hide Linked;
    SetHuge(root, s.mem, s.tabs, p, UNUSED);
    Chain(s.tabs, p);
    if Widened(root, s.mem, s.tabs) { SetHugeWidened(root, s.mem, s.tabs, p, UNUSED); }
  }

  datatype Found = Nothing | Small | Large

  /** What the walk of `unmap_and_gc` finds for a leaf. */
  function FoundFor(leaf: Option<Leaf>): Found {
    match leaf
    case None => Nothing
    case Some(leaf) => if leaf.level == 1 then Small else Large
  }

  /** The first half of `unmap_and_gc`: walk down and clear the leaf. */
  method ClearLeaf(a: AddressSpace, v: nat) returns (found: Found, frame: nat)
    requires a.Valid() && !InWindow(PageAt(v))
    requires var leaf := a.Translations()[PageAt(v)]; leaf.Some? ==> leaf.value.level != 3
    modifies a
    ensures a.Valid() && found == FoundFor(old(a.Translations())[PageAt(v)])
    ensures found == Nothing ==> a.Now() == old(a.Now())
    ensures found == Small ==> LeafCleared(a.root, old(a.Now()), a.Now(), PageAt(v)) && KeyOf(PageAt(v), 1) in a.tabs
    ensures found == Small ==> frame == old(a.Translations())[PageAt(v)].value.entry.addr
    ensures found == Large ==> SpanCleared(a.root, old(a.Now()), a.Now(), PageAt(v))
  {
    hide Widened, Linked, PageAt, StillInhabited, SetSpan, LeafOf;
    ghost var s, p := a.Now(), PageAt(v);
    var level := 4;
    frame := 0;
    while true
      invariant 1 <= level <= 4 && KeyOf(p, level) in a.tabs && a.Now() == s
      decreases level
    {
      var e := a.ReadEntry(v, level);
      if !e.flags.present {
        return Nothing, 0;
      }
      if level == 1 {
        frame := e.addr;
        var t := a.TableAt(v, level);
        a.mem := Put(a.mem, t, Index(PageAt(v), level), UNUSED);
        ClearStep(a.root, s, a.Now(), p);
        return Small, frame;
      }
      if level == 2 && e.flags.huge {
        var t := a.TableAt(v, level);
        a.mem := Put(a.mem, t, Index(PageAt(v), level), UNUSED);
        ClearSpanStep(a.root, s, a.Now(), p);
        return Large, 0;
      }
      level := level - 1;
    }
  }

  // ---------------------------------------------------------------------------
  // unmap_and_gc
  // ---------------------------------------------------------------------------

  predicate IsSmall(leaf: Option<Leaf>) {
    leaf.Some? && leaf.value.level == 1
  }

  /** The leaf frame given back to the allocator. */
  function FreedLeaf(leaf: Option<Leaf>, freeLeaf: bool): set<nat> {
    if freeLeaf && IsSmall(leaf) then {leaf.value.entry.addr} else {}
  }

  /** A leaf frame that may be given back: in use, and not a page table. */
  ghost predicate Returnable(s: Snapshot, leaf: Option<Leaf>) {
    IsSmall(leaf) ==> leaf.value.entry.addr in s.used && leaf.value.entry.addr !in s.mem
  }

  /** Tables only dropped; the frames given back are theirs and `freed`, no others. */
  ghost predicate FramesReturned(s: Snapshot, s': Snapshot, freed: set<nat>) {
    && (forall k <- s'.tabs :: k in s.tabs && s'.tabs[k] == s.tabs[k])
    && s'.used == s.used - NewFrames(s', s) - freed
    && s'.mem.Keys <= s.mem.Keys
  }

  /** `s'` translates as `flat`, is well formed, and is widened if `s` was. */
  ghost predicate Becomes(root: nat, s: Snapshot, s': Snapshot, flat: FlatMap) {
    && WellFormed(root, s.mem, s.tabs) && WellFormed(root, s'.mem, s'.tabs)
    && Flat(root, s'.mem, s'.tabs) == flat
    && (Widened(root, s.mem, s.tabs) ==> Widened(root, s'.mem, s'.tabs))
  }

  /** What happened to the tables around page `p`, whose leaf was `leaf`. A 4 KB
      leaf: no table of the walk is left empty and no other table became so. A 2 MB
      leaf: all tables are still there. */
  ghost predicate TidiedUp(s: Snapshot, s': Snapshot, p: Page, leaf: Option<Leaf>) {
    && DroppedOn(s, s', p)
    && (IsSmall(leaf) ==> WalkInhabited(s', p))
    && (leaf == None || IsSmall(leaf) ==> Kept(s, s'))
    && (!IsSmall(leaf) ==> s'.tabs == s.tabs)
  }

  /** No table below the root lost its last entry and stayed. */
  ghost predicate Kept(s: Snapshot, s': Snapshot) {
    forall k <- s'.tabs :: k in s.tabs && k.Level() <= 3 && Inhabited(s.mem, s.tabs[k]) ==>
      Inhabited(s'.mem, s'.tabs[k])
  }

  lemma UnmapSmall(flat: FlatMap, p: Page)
    requires p in flat && IsSmall(flat[p])
    requires forall q <- flat :: Served(flat[q], p, q) ==> flat[p] == flat[q]
    ensures UnmapOne(flat, p) == flat[p := None]
  {
    assert Served(flat[p], p, p);
  }

  lemma UnmapLarge(flat: FlatMap, p: Page)
    requires p in flat && flat[p].Some? && flat[p].value.level == 2
    requires forall q <- flat :: Served(flat[q], p, q) ==> flat[p] == flat[q]
    requires forall q <- flat :: Served(flat[p], q, p) ==> flat[p] == flat[q]
    ensures UnmapOne(flat, p) == SetSpan(flat, p, None)
  {
    forall q <- flat
      ensures Served(flat[q], p, q) <==> SameSpan(p, q)
    {
      if SameSpan(p, q) { assert Served(flat[p], q, p); }
    }
  }

  lemma UnmapNothing(flat: FlatMap, p: Page)
    requires p in flat && flat[p] == None
    requires forall q <- flat :: Served(flat[q], p, q) ==> flat[p] == flat[q]
    ensures UnmapOne(flat, p) == flat
  {
  }

  lemma FlatShared(root: nat, mem: Memory, tabs: Tables, p: Page)
    requires WellFormed(root, mem, tabs) && Good(p)
    ensures var flat := Flat(root, mem, tabs);
            && (forall q <- flat :: Served(flat[q], p, q) ==> flat[p] == flat[q])
            && (forall q <- flat :: Served(flat[p], q, p) ==> flat[p] == flat[q])
  {
    hide Linked, Rooted;
    var flat := Flat(root, mem, tabs);
    forall q | Good(q)
      ensures Served(flat[q], p, q) ==> flat[p] == flat[q]
      ensures Served(flat[p], q, p) ==> flat[p] == flat[q]
    {
      if Served(flat[q], p, q) { LeafShared(root, mem, tabs, p, q); }
      if Served(flat[p], q, p) { LeafShared(root, mem, tabs, q, p); }
    }
  }

  /** Everything `unmap_and_gc` promises about one page. */
  ghost predicate Unmapped(root: nat, s: Snapshot, s': Snapshot, p: Page, freeLeaf: bool)
    requires WellFormed(root, s.mem, s.tabs) && Good(p)
  {
    var flat := Flat(root, s.mem, s.tabs);
    && Becomes(root, s, s', UnmapOne(flat, p))
    && FramesReturned(s, s', FreedLeaf(flat[p], freeLeaf))
    && TidiedUp(s, s', p, flat[p])
  }

  lemma NothingUnmapped(root: nat, s: Snapshot, p: Page, freeLeaf: bool)
    requires WellFormed(root, s.mem, s.tabs) && Good(p) && Flat(root, s.mem, s.tabs)[p] == None
    ensures Unmapped(root, s, s, p, freeLeaf)
  {
    hide Linked, Rooted, Widened, LeafOf, UnmapOne, Inhabited, Served;
    FlatShared(root, s.mem, s.tabs, p);
    UnmapNothing(Flat(root, s.mem, s.tabs), p);
    assert NewFrames(s, s) == {};
  }

  lemma SpanUnmapped(root: nat, s: Snapshot, s': Snapshot, p: Page, freeLeaf: bool)
    requires SpanCleared(root, s, s', p) && Good(p)
    requires var leaf := Flat(root, s.mem, s.tabs)[p]; leaf.Some? && leaf.value.level == 2
    ensures Unmapped(root, s, s', p, freeLeaf)
  {
    hide Linked, Rooted, Widened, LeafOf, UnmapOne, SetSpan, Inhabited, Served;
    FlatShared(root, s.mem, s.tabs, p);
    UnmapLarge(Flat(root, s.mem, s.tabs), p);
    assert NewFrames(s', s) == {};
  }

  /** Clearing a 4 KB leaf, returning its frame, then collecting. */
  lemma SmallUnmapped(root: nat, s: Snapshot, s1: Snapshot, s2: Snapshot, s': Snapshot, p: Page, freeLeaf: bool)
    requires LeafCleared(root, s, s1, p) && Good(p) && IsSmall(Flat(root, s.mem, s.tabs)[p])
    requires s2 == s1.(used := s1.used - FreedLeaf(Flat(root, s.mem, s.tabs)[p], freeLeaf))
    requires Collected(root, s2, s', p, 4) && WalkInhabited(s', p)
    ensures Unmapped(root, s, s', p, freeLeaf)
  {
    hide Linked, Rooted, Widened, WalkInhabited, Inhabited, LeafOf, UnmapOne, Served;
    FlatShared(root, s.mem, s.tabs, p);
    UnmapSmall(Flat(root, s.mem, s.tabs), p);
    assert NewFrames(s', s) == NewFrames(s', s2);
    SmallStill(s, s2, s', p);
  }

  lemma SmallStill(s: Snapshot, s2: Snapshot, s': Snapshot, p: Page)
    requires s2.tabs == s.tabs && StillInhabited(s, s2, p, 1) && StillInhabited(s2, s', p, 4) && WalkInhabited(s', p)
    requires forall k <- s'.tabs :: k in s2.tabs && s'.tabs[k] == s2.tabs[k]
    ensures Kept(s, s')
  {
    hide Inhabited;
    forall k <- s'.tabs | k.Level() <= 3 && Inhabited(s.mem, s.tabs[k])
      ensures Inhabited(s'.mem, s'.tabs[k])
    {
      if k == KeyOf(p, 1) { assert k == KeyOf(p, k.Level()); }
    }
  }

  /** `deallocate_frame_raw`. */
  method DeallocateFrame(a: AddressSpace, f: nat)
    requires f in a.used
    modifies a`used
    ensures a.used == old(a.used) - {f}
  {
    a.used := a.used - {f};
  }

  /** As the processor sees it: addresses whose leaf serves no page of the run, outside the
      self-map, are translated as before. */
  ghost predicate OthersKept(root: nat, mem: Memory, mem': Memory, flat: FlatMap, first: nat, n: nat) {
    forall v: nat :: !InWindow(PageAt(v)) && PageAt(v) in flat && !Hit(flat[PageAt(v)], PageAt(v), first, n) ==>
      HwWalk(root, mem', v) == HwWalk(root, mem, v)
  }

  lemma UnmapOneIsRun(flat: FlatMap, p: Page)
    requires Good(p)
    ensures UnmapOne(flat, p) == UnmapRun(flat, Number(p), 1)
  {
    hide Number;
    forall q | q in flat
      ensures Hit(flat[q], q, Number(p), 1) <==> Served(flat[q], p, q)
    {
      assert Served(flat[q], p, q) ==> InRun(p, Number(p), 1);
      if Hit(flat[q], q, Number(p), 1) {
        var r :| Good(r) && InRun(r, Number(p), 1) && Served(flat[q], r, q);
        NumberInjective(r, p);
      }
    }
  }

  /** After a run is unmapped the processor faults on each of its pages. */
  lemma RunFaults(root: nat, s: Snapshot, s': Snapshot, first: nat, n: nat, v: nat)
    requires WellFormed(root, s.mem, s.tabs) && Becomes(root, s, s', UnmapRun(Flat(root, s.mem, s.tabs), first, n))
    requires !InWindow(PageAt(v)) && InRun(PageAt(v), first, n)
    ensures HwWalk(root, s'.mem, v).Fault?
  {
    hide Linked, Rooted, Widened, PageAt, LeafOf, HwWalk, Number;
    var q, flat := PageAt(v), Flat(root, s.mem, s.tabs);
    LeafLevels(root, s.mem, s.tabs, q);
    assert flat[q].Some? ==> Served(flat[q], q, q);
    HwMatchesLeaf(root, s'.mem, s'.tabs, v);
  }

  lemma RunOthersKept(root: nat, s: Snapshot, s': Snapshot, first: nat, n: nat)
    requires WellFormed(root, s.mem, s.tabs) && Becomes(root, s, s', UnmapRun(Flat(root, s.mem, s.tabs), first, n))
    requires Widened(root, s.mem, s.tabs)
    ensures OthersKept(root, s.mem, s'.mem, Flat(root, s.mem, s.tabs), first, n)
  {
    hide Linked, Rooted, Widened, PageAt, LeafOf, HwWalk, Hit;
    var flat := Flat(root, s.mem, s.tabs);
    forall v: nat | !InWindow(PageAt(v)) && PageAt(v) in flat && !Hit(flat[PageAt(v)], PageAt(v), first, n)
      ensures HwWalk(root, s'.mem, v) == HwWalk(root, s.mem, v)
    {
      WalkOfLeaf(root, s.mem, s.tabs, v);
      WalkOfLeaf(root, s'.mem, s'.tabs, v);
    }
  }

  lemma UnmappedWalks(root: nat, s: Snapshot, s': Snapshot, v: nat, freeLeaf: bool)
    requires WellFormed(root, s.mem, s.tabs) && !InWindow(PageAt(v)) && Unmapped(root, s, s', PageAt(v), freeLeaf)
    ensures HwWalk(root, s'.mem, v).Fault?
    ensures Widened(root, s.mem, s.tabs) ==>
              OthersKept(root, s.mem, s'.mem, Flat(root, s.mem, s.tabs), NumberAt(v), 1)
  {
    hide Linked, Rooted, Widened, PageAt, LeafOf, HwWalk, OthersKept, UnmapOne, UnmapRun;
    UnmapOneIsRun(Flat(root, s.mem, s.tabs), PageAt(v));
    RunFaults(root, s, s', NumberAt(v), 1, v);
    if Widened(root, s.mem, s.tabs) { RunOthersKept(root, s, s', NumberAt(v), 1); }
  }

  /** `unmap_and_gc`: unmap the page, give its frame back if asked, and drop the
      tables that became empty. */
  method UnmapAndGc(a: AddressSpace, v: nat, freeLeaf: bool)
    requires a.Valid() && !InWindow(PageAt(v))
    requires var leaf := a.Translations()[PageAt(v)]; leaf.Some? ==> leaf.value.level != 3
    requires freeLeaf ==> Returnable(a.Now(), a.Translations()[PageAt(v)])
    modifies a
    ensures a.Valid() && Unmapped(a.root, old(a.Now()), a.Now(), PageAt(v), freeLeaf)
    ensures HwWalk(a.root, a.mem, v).Fault?
    ensures old(Widened(a.root, a.mem, a.tabs)) ==>
              OthersKept(a.root, old(a.mem), a.mem, old(a.Translations()), NumberAt(v), 1)
  {
    UnmapAndCollect(a, v, freeLeaf);
    hide Linked, Rooted, Widened, PageAt, LeafOf, Unmapped, HwWalk, OthersKept;
    UnmappedWalks(a.root, old(a.Now()), a.Now(), v, freeLeaf);
  }

  /** The body of `unmap_and_gc`. */
  method UnmapAndCollect(a: AddressSpace, v: nat, freeLeaf: bool)
    requires a.Valid() && !InWindow(PageAt(v))
    requires var leaf := a.Translations()[PageAt(v)]; leaf.Some? ==> leaf.value.level != 3
    requires freeLeaf ==> Returnable(a.Now(), a.Translations()[PageAt(v)])
    modifies a
    ensures a.Valid() && Unmapped(a.root, old(a.Now()), a.Now(), PageAt(v), freeLeaf)
  {
    hide Linked, Rooted, Widened, PageAt, LeafOf, StillInhabited, WalkInhabited, Collected, Unmapped, SetSpan;
    ghost var s, p, leaf := a.Now(), PageAt(v), a.Translations()[PageAt(v)];
    assert leaf.Some? ==> leaf.value.level == 1 || leaf.value.level == 2 by { LeafLevels(a.root, a.mem, a.tabs, p); }
    var found, frame := ClearLeaf(a, v);
    if found == Nothing {
      NothingUnmapped(a.root, s, p, freeLeaf);
      return;
    }
    if found == Large {
      SpanUnmapped(a.root, s, a.Now(), p, freeLeaf);
      return;
    }
    ghost var s1 := a.Now();
    if freeLeaf {
      DeallocateFrame(a, frame);
    }
    ghost var s2 := a.Now();
    CollectTables(a, v);
    SmallUnmapped(a.root, s, s1, s2, a.Now(), p, freeLeaf);
  }

  // ---------------------------------------------------------------------------
  // Regions
  // ---------------------------------------------------------------------------

  /** Frames behind the 4 KB leaves of a run. */
  ghost function LeafFrames(flat: FlatMap, first: nat, n: nat): set<nat>
    requires first + n <= PAGES && forall q :: q in flat <==> Good(q)
  {
    set m | first <= m < first + n && IsSmall(flat[PageOf(m)]) :: flat[PageOf(m)].value.entry.addr
  }

  ghost predicate AllSmall(flat: FlatMap, first: nat, n: nat)
    requires first + n <= PAGES && forall q :: q in flat <==> Good(q)
  {
    forall m :: first <= m < first + n ==> flat[PageOf(m)] == None || IsSmall(flat[PageOf(m)])
  }

  /** No page of the run is a 1 GB page. */
  ghost predicate NoGiant(flat: FlatMap, first: nat, n: nat)
    requires first + n <= PAGES && forall q :: q in flat <==> Good(q)
  {
    forall m :: first <= m < first + n ==> flat[PageOf(m)].Some? ==> flat[PageOf(m)].value.level != 3
  }

  /** The leaf frames of a run can be given back, each once. */
  ghost predicate RunReturnable(s: Snapshot, flat: FlatMap, first: nat, n: nat)
    requires first + n <= PAGES && forall q :: q in flat <==> Good(q)
  {
    && (forall m :: first <= m < first + n ==> Returnable(s, flat[PageOf(m)]))
    && (forall m, m' :: first <= m < m' < first + n && IsSmall(flat[PageOf(m)]) && IsSmall(flat[PageOf(m')]) ==>
          flat[PageOf(m)].value.entry.addr != flat[PageOf(m')].value.entry.addr)
  }

  /** Only tables serving the run were dropped. */
  ghost predicate DroppedFor(s: Snapshot, s': Snapshot, first: nat, n: nat) {
    forall k <- s.tabs :: k in s'.tabs || OnWalk(k, first, n)
  }

  /** Everything unmapping a run promises. */
  ghost predicate Released(root: nat, s: Snapshot, s': Snapshot, first: nat, n: nat, freeLeaf: bool)
    requires WellFormed(root, s.mem, s.tabs) && first + n <= PAGES
  {
    var flat := Flat(root, s.mem, s.tabs);
    && Becomes(root, s, s', UnmapRun(flat, first, n))
    && FramesReturned(s, s', if freeLeaf then LeafFrames(flat, first, n) else {})
    && DroppedFor(s, s', first, n)
    && (AllSmall(flat, first, n) ==> Kept(s, s'))
  }

  lemma ReleasedNone(root: nat, s: Snapshot, first: nat, freeLeaf: bool)
    requires WellFormed(root, s.mem, s.tabs) && first <= PAGES
    ensures Released(root, s, s, first, 0, freeLeaf)
  {
    hide Linked, Rooted, Widened;
    var flat := Flat(root, s.mem, s.tabs);
    assert UnmapRun(flat, first, 0) == flat;
    assert NewFrames(s, s) == {};
    assert LeafFrames(flat, first, 0) == {};
  }

  /** What earlier rounds left of the next page of the run. */
  lemma NextLeaf(flat: FlatMap, first: nat, j: nat)
    requires first + j < PAGES && forall q :: q in flat <==> Good(q)
    requires forall q <- flat :: flat[q].Some? ==> 1 <= flat[q].value.level <= 3
    ensures var p := PageOf(first + j);
            var left := UnmapRun(flat, first, j)[p];
            && (left == None || left == flat[p])
            && (flat[p] == None ==> left == None)
            && (IsSmall(flat[p]) ==> left == flat[p])
  {
    var p := PageOf(first + j);
    if IsSmall(flat[p]) {
      forall r | Good(r) && Served(flat[p], r, p)
        ensures !InRun(r, first, j)
      {
        assert r == p;
      }
    }
  }

  lemma LeafFramesStep(flat: FlatMap, first: nat, j: nat)
    requires first + j < PAGES && forall q :: q in flat <==> Good(q)
    ensures LeafFrames(flat, first, j + 1) == LeafFrames(flat, first, j) + FreedLeaf(flat[PageOf(first + j)], true)
  {
    hide PageOf, Number;
    forall f
      ensures f in LeafFrames(flat, first, j + 1) <==>
                f in LeafFrames(flat, first, j) || f in FreedLeaf(flat[PageOf(first + j)], true)
    {
      if f in LeafFrames(flat, first, j + 1) {
        var m :| first <= m < first + (j + 1) && IsSmall(flat[PageOf(m)]) && f == flat[PageOf(m)].value.entry.addr;
        assert m < first + j || m == first + j;
      }
      if f in LeafFrames(flat, first, j) {
        var m :| first <= m < first + j && IsSmall(flat[PageOf(m)]) && f == flat[PageOf(m)].value.entry.addr;
        assert first <= m < first + (j + 1);
      }
      if f in FreedLeaf(flat[PageOf(first + j)], true) {
        assert first <= first + j < first + (j + 1);
      }
    }
  }

  lemma FramesReturnedTrans(s: Snapshot, s1: Snapshot, s2: Snapshot, x: set<nat>, y: set<nat>)
    requires FramesReturned(s, s1, x) && FramesReturned(s1, s2, y)
    ensures FramesReturned(s, s2, x + y)
  {
    forall f
      ensures f in NewFrames(s2, s) <==> f in NewFrames(s1, s) || f in NewFrames(s2, s1)
    {
      if f in NewFrames(s1, s) {
        var k :| k in s.tabs && k !in s1.tabs && f == s.tabs[k];
        assert k !in s2.tabs;
      }
      if f in NewFrames(s2, s1) {
        var k :| k in s1.tabs && k !in s2.tabs && f == s1.tabs[k];
        assert k in s.tabs && s.tabs[k] == f;
      }
      if f in NewFrames(s2, s) {
        var k :| k in s.tabs && k !in s2.tabs && f == s.tabs[k];
        if k in s1.tabs { assert s1.tabs[k] == f; }
      }
    }
  }

  lemma DroppedTrans(s: Snapshot, s1: Snapshot, s2: Snapshot, p: Page, first: nat, j: nat)
    requires DroppedFor(s, s1, first, j) && DroppedOn(s1, s2, p) && Good(p) && Number(p) == first + j
    ensures DroppedFor(s, s2, first, j + 1)
  {
    forall k <- s.tabs | k !in s2.tabs
      ensures OnWalk(k, first, j + 1)
    {
      if k in s1.tabs {
        assert InRun(p, first, j + 1);
      } else {
        var q :| Good(q) && InRun(q, first, j) && k == KeyOf(q, k.Level());
        assert InRun(q, first, j + 1);
      }
    }
  }

  lemma KeptTrans(s: Snapshot, s1: Snapshot, s2: Snapshot)
    requires Kept(s, s1) && Kept(s1, s2)
    requires forall k <- s1.tabs :: k in s.tabs && s1.tabs[k] == s.tabs[k]
    requires forall k <- s2.tabs :: k in s1.tabs && s2.tabs[k] == s1.tabs[k]
    ensures Kept(s, s2)
  {
  }

  lemma FlatLevels(root: nat, mem: Memory, tabs: Tables)
    requires WellFormed(root, mem, tabs)
    ensures var flat := Flat(root, mem, tabs); forall q <- flat :: flat[q].Some? ==> 1 <= flat[q].value.level <= 3
  {
    hide LeafOf, Linked, Rooted;
    var flat := Flat(root, mem, tabs);
    forall q | q in flat
      ensures flat[q].Some? ==> 1 <= flat[q].value.level <= 3
    {
      LeafLevels(root, mem, tabs, q);
    }
  }

  lemma ReleasedRound(root: nat, s: Snapshot, s1: Snapshot, s2: Snapshot, first: nat, j: nat, freeLeaf: bool)
    requires WellFormed(root, s.mem, s.tabs) && first + j < PAGES
    requires Released(root, s, s1, first, j, freeLeaf)
    requires Unmapped(root, s1, s2, PageOf(first + j), freeLeaf)
    ensures Released(root, s, s2, first, j + 1, freeLeaf)
  {
    hide Linked, Rooted, Widened, Shape, LeafOf, PageOf, Number, Kept, FramesReturned, DroppedOn, DroppedFor, UnmapRun,
         UnmapOne, LeafFrames;
    var flat, p := Flat(root, s.mem, s.tabs), PageOf(first + j);
    FlatLevels(root, s.mem, s.tabs);
    NextLeaf(flat, first, j);
    UnmapRunStep(flat, first, j);
    LeafFramesStep(flat, first, j);
    var x := if freeLeaf then LeafFrames(flat, first, j) else {};
    var y := FreedLeaf(Flat(root, s1.mem, s1.tabs)[p], freeLeaf);
    FramesReturnedTrans(s, s1, s2, x, y);
    assert x + y == if freeLeaf then LeafFrames(flat, first, j + 1) else {};
    DroppedTrans(s, s1, s2, p, first, j);
    if AllSmall(flat, first, j + 1) {
      RoundKept(s, s1, s2, x, y);
    }
  }

  lemma RoundKept(s: Snapshot, s1: Snapshot, s2: Snapshot, x: set<nat>, y: set<nat>)
    requires FramesReturned(s, s1, x) && FramesReturned(s1, s2, y) && Kept(s, s1) && Kept(s1, s2)
    ensures Kept(s, s2)
  {
    KeptTrans(s, s1, s2);
  }

  /** The next leaf frame of the run is still in use and still no page table. */
  lemma NextReturnable(root: nat, s: Snapshot, s1: Snapshot, first: nat, n: nat, j: nat)
    requires WellFormed(root, s.mem, s.tabs) && first + n <= PAGES && j < n
    requires Released(root, s, s1, first, j, true)
    requires RunReturnable(s, Flat(root, s.mem, s.tabs), first, n)
    ensures Returnable(s1, Flat(root, s1.mem, s1.tabs)[PageOf(first + j)])
  {
    hide Linked, Rooted, Widened, LeafOf, PageOf, Number, Kept, DroppedFor, UnmapRun;
    var flat, p := Flat(root, s.mem, s.tabs), PageOf(first + j);
    FlatLevels(root, s.mem, s.tabs);
    NextLeaf(flat, first, j);
    var leaf := Flat(root, s1.mem, s1.tabs)[p];
    if IsSmall(leaf) {
      var f := leaf.value.entry.addr;
      assert Returnable(s, flat[p]);
      assert f !in LeafFrames(flat, first, j);
      assert f !in NewFrames(s1, s);
    }
  }

  /** Unmap or free the pages of a run, one at a time. */
  method ReleaseRun(a: AddressSpace, baseVirt: nat, size: nat, freeLeaf: bool)
    requires a.Valid() && PageRun(NumberAt(baseVirt), Steps(size))
    requires NoGiant(a.Translations(), NumberAt(baseVirt), Steps(size))
    requires freeLeaf ==> RunReturnable(a.Now(), a.Translations(), NumberAt(baseVirt), Steps(size))
    modifies a
    ensures a.Valid() && Released(a.root, old(a.Now()), a.Now(), NumberAt(baseVirt), Steps(size), freeLeaf)
    ensures forall v: nat :: !InWindow(PageAt(v)) && InRun(PageAt(v), NumberAt(baseVirt), Steps(size)) ==>
              HwWalk(a.root, a.mem, v).Fault?
    ensures old(Widened(a.root, a.mem, a.tabs)) ==>
              OthersKept(a.root, old(a.mem), a.mem, old(a.Translations()), NumberAt(baseVirt), Steps(size))
  {
    ReleasePages(a, baseVirt, size, freeLeaf);
    hide Linked, Rooted, Widened, PageAt, LeafOf, HwWalk, OthersKept, UnmapRun, FramesReturned, DroppedFor, Kept,
         LeafFrames, Number;
    forall v: nat | !InWindow(PageAt(v)) && InRun(PageAt(v), NumberAt(baseVirt), Steps(size))
      ensures HwWalk(a.root, a.mem, v).Fault?
    {
      RunFaults(a.root, old(a.Now()), a.Now(), NumberAt(baseVirt), Steps(size), v);
    }
    if old(Widened(a.root, a.mem, a.tabs)) {
      RunOthersKept(a.root, old(a.Now()), a.Now(), NumberAt(baseVirt), Steps(size));
    }
  }

  /** The loop of `unmap_region` and `free_region`. */
  method ReleasePages(a: AddressSpace, baseVirt: nat, size: nat, freeLeaf: bool)
    requires a.Valid() && PageRun(NumberAt(baseVirt), Steps(size))
    requires NoGiant(a.Translations(), NumberAt(baseVirt), Steps(size))
    requires freeLeaf ==> RunReturnable(a.Now(), a.Translations(), NumberAt(baseVirt), Steps(size))
    modifies a
    ensures a.Valid() && Released(a.root, old(a.Now()), a.Now(), NumberAt(baseVirt), Steps(size), freeLeaf)
  {
    hide Linked, Rooted, Widened, LeafOf, PageAt, PageOf, Number, Kept, DroppedFor, UnmapRun, FramesReturned, Released,
         Unmapped, RunReturnable, Returnable;
    ghost var s, first := a.Now(), NumberAt(baseVirt);
    var j := 0;
    ReleasedNone(a.root, s, first, freeLeaf);
    while j < Steps(size)
      invariant 0 <= j <= Steps(size) && a.Valid()
      invariant Released(a.root, s, a.Now(), first, j, freeLeaf)
    {
      ghost var s1 := a.Now();
      StepPage(baseVirt, j);
      if freeLeaf { NextReturnable(a.root, s, s1, first, Steps(size), j); }
      NextNotGiant(a.root, s, s1, first, Steps(size), j, freeLeaf);
      UnmapAndGc(a, baseVirt + j * PAGE_SIZE, freeLeaf);
      ReleasedRound(a.root, s, s1, a.Now(), first, j, freeLeaf);
      j := j + 1;
    }
  }

  lemma NextNotGiant(root: nat, s: Snapshot, s1: Snapshot, first: nat, n: nat, j: nat, freeLeaf: bool)
    requires WellFormed(root, s.mem, s.tabs) && first + n <= PAGES && j < n
    requires Released(root, s, s1, first, j, freeLeaf)
    requires NoGiant(Flat(root, s.mem, s.tabs), first, n)
    ensures var leaf := Flat(root, s1.mem, s1.tabs)[PageOf(first + j)]; leaf.Some? ==> leaf.value.level != 3
  {
    hide Linked, Rooted, Widened, LeafOf, PageOf, Number, Kept, DroppedFor, UnmapRun, FramesReturned;
    FlatLevels(root, s.mem, s.tabs);
    NextLeaf(Flat(root, s.mem, s.tabs), first, j);
  }
}
