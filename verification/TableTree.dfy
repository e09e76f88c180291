/** The radix tree of page tables behind one PML4, and the flat map from page to
    leaf entry that it stands for. The tree is described by `tabs`: for each place
    that has a table, the frame holding it. */
module TableTree {
  import opened Common
  import opened Paging

  /** A place for a table, named by the indices that lead to it from the PML4. */
  datatype Key = PML4 | PDPT(a: nat) | PD(a: nat, b: nat) | PT(a: nat, b: nat, c: nat)
  {
    function Level(): nat {
      if PML4? then 4 else if PDPT? then 3 else if PD? then 2 else 1
    }

    function Parent(): Key
      requires !PML4?
    {
      if PDPT? then PML4 else if PD? then PDPT(a) else PD(a, b)
    }

    /** The slot of the parent table that leads here. */
    function Last(): nat
      requires !PML4?
    {
      if PDPT? then a else if PD? then b else c
    }

    function Child(i: nat): Key
      requires !PT?
    {
      if PML4? then PDPT(i) else if PDPT? then PD(a, i) else PT(a, b, i)
    }
  }

  type Tables = map<Key, nat>

  type Memory = map<nat, Table>

  /** Place of the level-`l` table on the walk of `p`. */
  function KeyOf(p: Page, l: nat): Key
    requires 1 <= l <= 4
  {
    if l == 4 then PML4 else if l == 3 then PDPT(p.i4) else if l == 2 then PD(p.i4, p.i3) else PT(p.i4, p.i3, p.i2)
  }

  /** Whether `p` and `q` use the same level-`l` slot of the same table. */
  predicate SameSlot(p: Page, q: Page, l: nat)
    requires 1 <= l <= 4
  {
    KeyOf(p, l) == KeyOf(q, l) && Index(p, l) == Index(q, l)
  }

  /** The entry installed in slot 510 of every PML4. */
  function SelfEntry(root: nat): Entry {
    Entry(root, Flags(true, true, false, false, true))
  }

  ghost predicate EntryOk(e: Entry, k: Key, i: nat, tabs: Tables) {
    && (!e.flags.present ==> e == UNUSED)
    && (k.PML4? ==> !e.flags.huge)
    && (!k.PT? ==>
          && (k.Child(i) in tabs <==> e.flags.present && !e.flags.huge)
          && (k.Child(i) in tabs ==> tabs[k.Child(i)] == e.addr))
  }

  /** Every table is a 512-entry frame, no frame serves two places. */
  ghost predicate Shape(root: nat, mem: Memory, tabs: Tables) {
    && PML4 in tabs && tabs[PML4] == root
    && (forall k <- tabs :: tabs[k] != 0 && tabs[k] in mem && |mem[tabs[k]]| == ENTRIES)
    && (forall k <- tabs, k' <- tabs :: tabs[k] == tabs[k'] ==> k == k')
  }

  /** Every table except the root hangs in a slot of another table, never in slot 510 of the root. */
  ghost predicate Rooted(tabs: Tables) {
    forall k <- tabs :: k.PML4? || (k.Parent() in tabs && k.Last() < ENTRIES && k != PDPT(RECURSIVE_INDEX))
  }

  ghost predicate Linked(mem: Memory, tabs: Tables)
    requires forall k <- tabs :: tabs[k] in mem && |mem[tabs[k]]| == ENTRIES
  {
    forall k, i {:trigger mem[tabs[k]][i]} ::
      k in tabs && 0 <= i < ENTRIES && !(k.PML4? && i == RECURSIVE_INDEX) ==> EntryOk(mem[tabs[k]][i], k, i, tabs)
  }

  /** Well-formed tree with its self-map entry in place. */
  ghost predicate WellFormed(root: nat, mem: Memory, tabs: Tables) {
    && Shape(root, mem, tabs)
    && Rooted(tabs)
    && Linked(mem, tabs)
    && mem[root][RECURSIVE_INDEX] == SelfEntry(root)
  }

  /** The entry for page `p` in its level-`l` table. */
  ghost function Slot(mem: Memory, tabs: Tables, p: Page, l: nat): Entry
    requires Good(p) && 1 <= l <= 4 && KeyOf(p, l) in tabs
    requires tabs[KeyOf(p, l)] in mem && |mem[tabs[KeyOf(p, l)]]| == ENTRIES
  {
    mem[tabs[KeyOf(p, l)]][Index(p, l)]
  }

  datatype Leaf = Leaf(entry: Entry, level: nat)

  function LeafIf(e: Entry, l: nat): Option<Leaf> {
    if e.flags.present then Some(Leaf(e, l)) else None
  }

  /** The flat meaning of the tree: the leaf entry translating page `p`, with the
      level (1, 2 or 3) at which it sits. */
  ghost function LeafOf(root: nat, mem: Memory, tabs: Tables, p: Page): Option<Leaf>
    requires Good(p) && Shape(root, mem, tabs)
  {
    if KeyOf(p, 1) in tabs then LeafIf(Slot(mem, tabs, p, 1), 1)
    else if KeyOf(p, 2) in tabs then LeafIf(Slot(mem, tabs, p, 2), 2)
    else if KeyOf(p, 3) in tabs then LeafIf(Slot(mem, tabs, p, 3), 3)
    else None
  }

  type FlatMap = imap<Page, Option<Leaf>>

  /** The whole flat map of a tree. */
  ghost function Flat(root: nat, mem: Memory, tabs: Tables): FlatMap
    requires Shape(root, mem, tabs)
  {
    imap q: Page | Good(q) :: LeafOf(root, mem, tabs, q)
  }

  /** A table on the walk of `p` means all tables above it are there too, each
      reached through a present, non-huge entry. */
  lemma PathAbove(root: nat, mem: Memory, tabs: Tables, p: Page, l: nat)
    requires WellFormed(root, mem, tabs) && Good(p) && 1 <= l < 4
    requires KeyOf(p, l) in tabs
    ensures KeyOf(p, l + 1) in tabs && !(l + 1 == 4 && InWindow(p))
    ensures var e := Slot(mem, tabs, p, l + 1);
            e.flags.present && !e.flags.huge && e.addr == tabs[KeyOf(p, l)]
  {
    var k := KeyOf(p, l);
    assert k.Parent() == KeyOf(p, l + 1) && k.Last() == Index(p, l + 1);
    assert k.Parent().Child(k.Last()) == k;
    assert EntryOk(mem[tabs[k.Parent()]][k.Last()], k.Parent(), k.Last(), tabs);
  }

  /** Below a present non-huge entry outside slot 510 there is a table. */
  lemma PathBelow(root: nat, mem: Memory, tabs: Tables, p: Page, l: nat)
    requires WellFormed(root, mem, tabs) && Good(p) && 2 <= l <= 4 && !InWindow(p)
    requires KeyOf(p, l) in tabs
    ensures var e := Slot(mem, tabs, p, l);
            && (KeyOf(p, l - 1) in tabs <==> e.flags.present && !e.flags.huge)
            && (KeyOf(p, l - 1) in tabs ==> tabs[KeyOf(p, l - 1)] == e.addr)
            && (!e.flags.present ==> e == UNUSED)
            && (l == 4 ==> !e.flags.huge)
  {
    var k := KeyOf(p, l);
    assert k.Child(Index(p, l)) == KeyOf(p, l - 1);
    assert EntryOk(mem[tabs[k]][Index(p, l)], k, Index(p, l), tabs);
  }

  /** The tables on the walk of `p` form an unbroken chain from the root. */
  lemma Chain(tabs: Tables, p: Page)
    requires Rooted(tabs)
    ensures KeyOf(p, 1) in tabs ==> KeyOf(p, 2) in tabs
    ensures KeyOf(p, 2) in tabs ==> KeyOf(p, 3) in tabs
    ensures KeyOf(p, 3) in tabs ==> KeyOf(p, 4) in tabs
  {
    assert KeyOf(p, 1).Parent() == KeyOf(p, 2);
    assert KeyOf(p, 2).Parent() == KeyOf(p, 3);
    assert KeyOf(p, 3).Parent() == KeyOf(p, 4);
  }

  // ---------------------------------------------------------------------------
  // Agreement with the hardware
  // ---------------------------------------------------------------------------

  /** An intermediate entry grants at least what an entry below it grants. */
  predicate Covers(outer: Flags, inner: Flags) {
    && (inner.user ==> outer.user)
    && (inner.writable ==> outer.writable)
    && !outer.noExec
  }

  /** The entry pointing at the table in place `k`. */
  ghost function Above(mem: Memory, tabs: Tables, k: Key): Entry
    requires !k.PML4? && k.Parent() in tabs && tabs[k.Parent()] in mem && k.Last() < |mem[tabs[k.Parent()]]|
  {
    mem[tabs[k.Parent()]][k.Last()]
  }

  /** Every entry pointing at a table covers the present entries of that table,
      and never forbids execution itself. */
  ghost predicate Widened(root: nat, mem: Memory, tabs: Tables)
    requires Shape(root, mem, tabs) && Rooted(tabs)
  {
    && (forall k <- tabs :: !k.PML4? ==> !Above(mem, tabs, k).flags.noExec)
    && forall k, i {:trigger mem[tabs[k]][i]} ::
         k in tabs && !k.PML4? && 0 <= i < ENTRIES && mem[tabs[k]][i].flags.present ==>
           Covers(Above(mem, tabs, k).flags, mem[tabs[k]][i].flags)
  }

  /** One edge of a widened tree, along the walk of a page. */
  lemma EdgeCovers(root: nat, mem: Memory, tabs: Tables, p: Page, l: nat)
    requires WellFormed(root, mem, tabs) && Widened(root, mem, tabs) && Good(p) && 2 <= l <= 4
    requires KeyOf(p, l) in tabs && KeyOf(p, l - 1) in tabs
    ensures !Slot(mem, tabs, p, l).flags.noExec
    ensures Slot(mem, tabs, p, l - 1).flags.present ==>
              Covers(Slot(mem, tabs, p, l).flags, Slot(mem, tabs, p, l - 1).flags)
  {
    var k := KeyOf(p, l - 1);
    assert k.Parent() == KeyOf(p, l) && k.Last() == Index(p, l);
    assert Above(mem, tabs, k) == Slot(mem, tabs, p, l);
    assert Slot(mem, tabs, p, l - 1) == mem[tabs[k]][Index(p, l - 1)];
  }

  lemma {:induction false} PathCovers(root: nat, mem: Memory, tabs: Tables, p: Page, l: nat)
    requires WellFormed(root, mem, tabs) && Widened(root, mem, tabs) && Good(p) && 2 <= l <= 4
    requires KeyOf(p, l) in tabs && LeafOf(root, mem, tabs, p).Some? && LeafOf(root, mem, tabs, p).value.level < l
    ensures Covers(Slot(mem, tabs, p, l).flags, LeafOf(root, mem, tabs, p).value.entry.flags)
  {
    Chain(tabs, p);
    EdgeCovers(root, mem, tabs, p, l);
    if LeafOf(root, mem, tabs, p).value.level < l - 1 {
      PathAbove(root, mem, tabs, p, l - 2);
      PathCovers(root, mem, tabs, p, l - 1);
    }
  }

  /** What a walk must yield for an address whose page has the given leaf, when it
      arrives with the given rights. */
  ghost predicate Agrees(walk: Access, leaf: Option<Leaf>, v: nat, user: bool, writable: bool, noExec: bool,
                         rights: bool) {
    match leaf
    case None => walk.Fault?
    case Some(leaf) =>
      && 1 <= leaf.level <= 3
      && walk.Mapped? && walk.pa == LeafAddress(leaf.entry, leaf.level, v)
      && (rights ==>
            && walk.user == (user && leaf.entry.flags.user)
            && walk.writable == (writable && leaf.entry.flags.writable)
            && walk.noExec == (noExec || leaf.entry.flags.noExec))
  }

  /** The processor faults exactly on the pages without a leaf; elsewhere it
      reaches the byte the leaf names, and the rights it accumulates over all
      levels are the leaf's own, whatever was widened on the way. */
  lemma {:induction false} WalkMatchesLeaf(root: nat, mem: Memory, tabs: Tables, v: nat, l: nat,
                                           user: bool, writable: bool, noExec: bool)
    requires WellFormed(root, mem, tabs) && !InWindow(PageAt(v)) && 1 <= l <= 4
    requires KeyOf(PageAt(v), l) in tabs
    ensures var leaf := LeafOf(root, mem, tabs, PageAt(v)); leaf.Some? ==> leaf.value.level <= l
    ensures Agrees(WalkFrom(mem, tabs[KeyOf(PageAt(v), l)], l, v, user, writable, noExec),
                   LeafOf(root, mem, tabs, PageAt(v)), v, user, writable, noExec, Widened(root, mem, tabs))
    decreases l
  {
    var p := PageAt(v);
    var e := Slot(mem, tabs, p, l);
    Chain(tabs, p);
    if l > 1 {
      PathBelow(root, mem, tabs, p, l);
      if e.flags.present && !e.flags.huge {
        WalkMatchesLeaf(root, mem, tabs, v, l - 1, user && e.flags.user, writable && e.flags.writable,
                        noExec || e.flags.noExec);
        if LeafOf(root, mem, tabs, p).Some? && Widened(root, mem, tabs) {
          PathCovers(root, mem, tabs, p, l);
        }
      }
    }
  }

  /** Translation of a whole address space outside the self-map window. */
  lemma HwMatchesLeaf(root: nat, mem: Memory, tabs: Tables, v: nat)
    requires WellFormed(root, mem, tabs) && !InWindow(PageAt(v))
    ensures Agrees(HwWalk(root, mem, v), Flat(root, mem, tabs)[PageAt(v)], v, true, true, false,
                   Widened(root, mem, tabs))
  {
    WalkMatchesLeaf(root, mem, tabs, v, 4, true, true, false);
  }

  // ---------------------------------------------------------------------------
  // Self-map
  // ---------------------------------------------------------------------------

  lemma WalkTable(root: nat, mem: Memory, tabs: Tables, k: Key, i: nat, l: nat, v: nat, u: bool, w: bool, x: bool)
    requires Shape(root, mem, tabs) && k in tabs && 1 <= l <= 4 && i == Index(PageAt(v), l) < ENTRIES
    requires mem[tabs[k]][i].flags.present
    ensures var e := mem[tabs[k]][i];
            WalkFrom(mem, tabs[k], l, v, u, w, x) ==
              if IsLeaf(e, l)
              then Mapped(LeafAddress(e, l, v), u && e.flags.user, w && e.flags.writable, x || e.flags.noExec)
              else WalkFrom(mem, e.addr, l - 1, v, u && e.flags.user, w && e.flags.writable, x || e.flags.noExec)
  {
  }

  /** A self-map hop brings the walk back to the PML4. */
  lemma WalkSelf(root: nat, mem: Memory, tabs: Tables, l: nat, v: nat, u: bool, w: bool, x: bool)
    requires WellFormed(root, mem, tabs) && 2 <= l <= 4 && Index(PageAt(v), l) == RECURSIVE_INDEX
    ensures WalkFrom(mem, root, l, v, u, w, x) == WalkFrom(mem, root, l - 1, v, false, w, true)
  {
    WalkTable(root, mem, tabs, PML4, RECURSIVE_INDEX, l, v, u, w, x);
  }

  /** The processor's translation of `TableAddr(v, l)` is the frame holding the
      level-`l` table on `v`'s own walk. */
  lemma SelfMapReachesTable(root: nat, mem: Memory, tabs: Tables, v: nat, l: nat)
    requires WellFormed(root, mem, tabs) && 1 <= l <= 4
    requires KeyOf(PageAt(v), l) in tabs
    ensures HwWalk(root, mem, TableAddr(v, l)).Mapped?
    ensures HwWalk(root, mem, TableAddr(v, l)).pa == tabs[KeyOf(PageAt(v), l)]
  {
    if l == 4 {
      SelfMapLevel4(root, mem, tabs, v);
    } else if l == 3 {
      SelfMapLevel3(root, mem, tabs, v);
    } else if l == 2 {
      SelfMapLevel2(root, mem, tabs, v);
    } else {
      SelfMapLevel1(root, mem, tabs, v);
    }
  }

  lemma SelfMapLevel4(root: nat, mem: Memory, tabs: Tables, v: nat)
    requires WellFormed(root, mem, tabs)
    ensures var walk := HwWalk(root, mem, TableAddr(v, 4)); walk.Mapped? && walk.pa == root
  {
    var r := RECURSIVE_INDEX;
    var a := TableAddr(v, 4);
    WindowAddressPage(r, r, r, r);
    WalkSelf(root, mem, tabs, 4, a, true, true, false);
    WalkSelf(root, mem, tabs, 3, a, false, true, true);
    WalkSelf(root, mem, tabs, 2, a, false, true, true);
    WalkTable(root, mem, tabs, PML4, r, 1, a, false, true, true);
  }

  lemma SelfMapLevel3(root: nat, mem: Memory, tabs: Tables, v: nat)
    requires WellFormed(root, mem, tabs) && KeyOf(PageAt(v), 3) in tabs
    ensures var walk := HwWalk(root, mem, TableAddr(v, 3)); walk.Mapped? && walk.pa == tabs[KeyOf(PageAt(v), 3)]
  {
    var r := RECURSIVE_INDEX;
    var p := PageAt(v);
    var a := TableAddr(v, 3);
    PathAbove(root, mem, tabs, p, 3);
    WindowAddressPage(r, r, r, p.i4);
    WalkSelf(root, mem, tabs, 4, a, true, true, false);
    WalkSelf(root, mem, tabs, 3, a, false, true, true);
    WalkSelf(root, mem, tabs, 2, a, false, true, true);
    WalkTable(root, mem, tabs, PML4, p.i4, 1, a, false, true, true);
  }

  lemma SelfMapLevel2(root: nat, mem: Memory, tabs: Tables, v: nat)
    requires WellFormed(root, mem, tabs) && KeyOf(PageAt(v), 2) in tabs
    ensures var walk := HwWalk(root, mem, TableAddr(v, 2)); walk.Mapped? && walk.pa == tabs[KeyOf(PageAt(v), 2)]
  {
    var r := RECURSIVE_INDEX;
    var p := PageAt(v);
    var a := TableAddr(v, 2);
    PathAbove(root, mem, tabs, p, 2);
    PathAbove(root, mem, tabs, p, 3);
    var e4 := Slot(mem, tabs, p, 4);
    WindowAddressPage(r, r, p.i4, p.i3);
    WalkSelf(root, mem, tabs, 4, a, true, true, false);
    WalkSelf(root, mem, tabs, 3, a, false, true, true);
    WalkTable(root, mem, tabs, PML4, p.i4, 2, a, false, true, true);
    WalkTable(root, mem, tabs, KeyOf(p, 3), p.i3, 1, a, false, e4.flags.writable, true);
  }

  lemma SelfMapLevel1(root: nat, mem: Memory, tabs: Tables, v: nat)
    requires WellFormed(root, mem, tabs) && KeyOf(PageAt(v), 1) in tabs
    ensures var walk := HwWalk(root, mem, TableAddr(v, 1)); walk.Mapped? && walk.pa == tabs[KeyOf(PageAt(v), 1)]
  {
    var r := RECURSIVE_INDEX;
    var p := PageAt(v);
    var a := TableAddr(v, 1);
    PathAbove(root, mem, tabs, p, 1);
    PathAbove(root, mem, tabs, p, 2);
    PathAbove(root, mem, tabs, p, 3);
    var e4 := Slot(mem, tabs, p, 4);
    var e3 := Slot(mem, tabs, p, 3);
    WindowAddressPage(r, p.i4, p.i3, p.i2);
    WalkSelf(root, mem, tabs, 4, a, true, true, false);
    WalkTable(root, mem, tabs, PML4, p.i4, 3, a, false, true, true);
    WalkTable(root, mem, tabs, KeyOf(p, 3), p.i3, 2, a, false, e4.flags.writable, true);
    WalkTable(root, mem, tabs, KeyOf(p, 2), p.i2, 1, a, false, e4.flags.writable && e3.flags.writable, true);
  }
}
