/** The edits the kernel makes to a table tree, and what each does to the tree and
    to its flat meaning. */
module TableEdit {
  import opened Common
  import opened Paging
  import opened TableTree

  /** Memory with one table slot overwritten. */
  function Put(mem: Memory, t: nat, i: nat, e: Entry): Memory
    requires t in mem && i < |mem[t]|
  {
    mem[t := mem[t][i := e]]
  }

  // ---------------------------------------------------------------------------
  // Overwriting a slot
  // ---------------------------------------------------------------------------

  lemma PutShape(root: nat, mem: Memory, tabs: Tables, c: Key, j: nat, e: Entry)
    requires Shape(root, mem, tabs) && c in tabs && j < ENTRIES
    ensures Shape(root, Put(mem, tabs[c], j, e), tabs)
  {
  }

  /** Any slot other than the overwritten one is untouched. */
  lemma PutOther(root: nat, mem: Memory, tabs: Tables, c: Key, j: nat, e: Entry, k: Key, i: nat)
    requires Shape(root, mem, tabs) && c in tabs && j < ENTRIES && k in tabs && i < ENTRIES
    ensures Put(mem, tabs[c], j, e)[tabs[k]][i] == if k == c && i == j then e else mem[tabs[k]][i]
  {
  }

  lemma PutWellFormed(root: nat, mem: Memory, tabs: Tables, c: Key, j: nat, e: Entry)
    requires WellFormed(root, mem, tabs) && c in tabs && j < ENTRIES
    requires EntryOk(e, c, j, tabs) && !(c.PML4? && j == RECURSIVE_INDEX)
    ensures WellFormed(root, Put(mem, tabs[c], j, e), tabs)
  {
    var mem': Memory := Put(mem, tabs[c], j, e);
    PutShape(root, mem, tabs, c, j, e);
    assert Linked(mem', tabs) by {
      forall k: Key, i: nat | k in tabs && i < ENTRIES && !(k.PML4? && i == RECURSIVE_INDEX)
        ensures EntryOk(mem'[tabs[k]][i], k, i, tabs)
      {
        PutOther(root, mem, tabs, c, j, e, k, i);
      }
    }
    PutOther(root, mem, tabs, c, j, e, PML4, RECURSIVE_INDEX);
  }

  /** The overwritten slot shows in the flat map exactly for the pages it serves
      that have no deeper table. */
  lemma PutLeaf(root: nat, mem: Memory, tabs: Tables, p: Page, l: nat, e: Entry, q: Page)
    requires Shape(root, mem, tabs) && Rooted(tabs) && Good(p) && Good(q) && 1 <= l <= 3 && KeyOf(p, l) in tabs
    requires Shape(root, Put(mem, tabs[KeyOf(p, l)], Index(p, l), e), tabs)
    ensures LeafOf(root, Put(mem, tabs[KeyOf(p, l)], Index(p, l), e), tabs, q) ==
            if SameSlot(p, q, l) && (l == 1 || KeyOf(q, l - 1) !in tabs) then LeafIf(e, l)
            else LeafOf(root, mem, tabs, q)
  {
    Chain(tabs, q);
    if KeyOf(q, 1) in tabs {
      PutOther(root, mem, tabs, KeyOf(p, l), Index(p, l), e, KeyOf(q, 1), q.i1);
    } else if KeyOf(q, 2) in tabs {
      PutOther(root, mem, tabs, KeyOf(p, l), Index(p, l), e, KeyOf(q, 2), q.i2);
    } else if KeyOf(q, 3) in tabs {
      PutOther(root, mem, tabs, KeyOf(p, l), Index(p, l), e, KeyOf(q, 3), q.i3);
    }
  }

  /** Overwriting one slot keeps the tree widened when the new entry is covered
      from above and, if a table hangs below it, grants no less than before. */
  lemma PutWidened(root: nat, mem: Memory, tabs: Tables, c: Key, j: nat, e: Entry)
    requires Shape(root, mem, tabs) && Rooted(tabs) && Widened(root, mem, tabs) && c in tabs && j < ENTRIES
    requires e.flags.present && !c.PML4? ==> Covers(Above(mem, tabs, c).flags, e.flags)
    requires !c.PT? && c.Child(j) in tabs ==>
               var was := mem[tabs[c]][j].flags;
               (was.user ==> e.flags.user) && (was.writable ==> e.flags.writable) && !e.flags.noExec
    ensures Shape(root, Put(mem, tabs[c], j, e), tabs) && Widened(root, Put(mem, tabs[c], j, e), tabs)
  {
    var mem': Memory := Put(mem, tabs[c], j, e);
    PutShape(root, mem, tabs, c, j, e);
    forall k: Key | k in tabs && !k.PML4?
      ensures !Above(mem', tabs, k).flags.noExec
    {
      PutOther(root, mem, tabs, c, j, e, k.Parent(), k.Last());
      assert k.Parent().Child(k.Last()) == k;
    }
    forall k: Key, i: nat | k in tabs && !k.PML4? && i < ENTRIES && mem'[tabs[k]][i].flags.present
      ensures Covers(Above(mem', tabs, k).flags, mem'[tabs[k]][i].flags)
    {
      PutOther(root, mem, tabs, c, j, e, k, i);
      PutOther(root, mem, tabs, c, j, e, k.Parent(), k.Last());
      assert k.Parent().Child(k.Last()) == k && k.Parent() != k;
    }
  }

  // ---------------------------------------------------------------------------
  // A 4 KB leaf
  // ---------------------------------------------------------------------------

  lemma SetLeaf(root: nat, mem: Memory, tabs: Tables, p: Page, e: Entry)
    requires WellFormed(root, mem, tabs) && Good(p) && KeyOf(p, 1) in tabs
    requires e.flags.present || e == UNUSED
    ensures var mem' := Put(mem, tabs[KeyOf(p, 1)], p.i1, e);
            && WellFormed(root, mem', tabs)
            && Flat(root, mem', tabs) == Flat(root, mem, tabs)[p := LeafIf(e, 1)]
  {
    PutWellFormed(root, mem, tabs, KeyOf(p, 1), p.i1, e);
    var mem' := Put(mem, tabs[KeyOf(p, 1)], p.i1, e);
    forall q: Page | Good(q)
      ensures LeafOf(root, mem', tabs, q) == if q == p then LeafIf(e, 1) else LeafOf(root, mem, tabs, q)
    {
      PutLeaf(root, mem, tabs, p, 1, e, q);
    }
  }

  lemma SetLeafWidened(root: nat, mem: Memory, tabs: Tables, p: Page, e: Entry)
    requires WellFormed(root, mem, tabs) && Widened(root, mem, tabs) && Good(p)
    requires KeyOf(p, 1) in tabs && KeyOf(p, 2) in tabs
    requires e.flags.present ==> Covers(Slot(mem, tabs, p, 2).flags, e.flags)
    ensures var mem' := Put(mem, tabs[KeyOf(p, 1)], p.i1, e);
            Shape(root, mem', tabs) && Widened(root, mem', tabs)
  {
    assert Above(mem, tabs, KeyOf(p, 1)) == Slot(mem, tabs, p, 2);
    PutWidened(root, mem, tabs, KeyOf(p, 1), p.i1, e);
  }

  // ---------------------------------------------------------------------------
  // A 2 MB leaf
  // ---------------------------------------------------------------------------

  /** Pages in the same aligned 2 MB. */
  predicate SameSpan(p: Page, q: Page) {
    p.i4 == q.i4 && p.i3 == q.i3 && p.i2 == q.i2
  }

  /** Flat map with all 512 pages around `p` sent to the same leaf. */
  ghost function SetSpan(flat: FlatMap, p: Page, leaf: Option<Leaf>): FlatMap {
    imap q: Page | q in flat :: if SameSpan(p, q) then leaf else flat[q]
  }

  lemma SetHuge(root: nat, mem: Memory, tabs: Tables, p: Page, e: Entry)
    requires WellFormed(root, mem, tabs) && Good(p) && KeyOf(p, 2) in tabs && KeyOf(p, 1) !in tabs
    requires (e.flags.present && e.flags.huge) || e == UNUSED
    ensures var mem' := Put(mem, tabs[KeyOf(p, 2)], p.i2, e);
            && WellFormed(root, mem', tabs)
            && Flat(root, mem', tabs) == SetSpan(Flat(root, mem, tabs), p, LeafIf(e, 2))
  {
    PutWellFormed(root, mem, tabs, KeyOf(p, 2), p.i2, e);
    var mem' := Put(mem, tabs[KeyOf(p, 2)], p.i2, e);
    forall q: Page | Good(q)
      ensures LeafOf(root, mem', tabs, q) == if SameSpan(p, q) then LeafIf(e, 2) else LeafOf(root, mem, tabs, q)
    {
      PutLeaf(root, mem, tabs, p, 2, e, q);
    }
  }

  lemma SetHugeWidened(root: nat, mem: Memory, tabs: Tables, p: Page, e: Entry)
    requires WellFormed(root, mem, tabs) && Widened(root, mem, tabs) && Good(p)
    requires KeyOf(p, 2) in tabs && KeyOf(p, 1) !in tabs && KeyOf(p, 3) in tabs
    requires e.flags.present ==> Covers(Slot(mem, tabs, p, 3).flags, e.flags)
    ensures var mem' := Put(mem, tabs[KeyOf(p, 2)], p.i2, e);
            Shape(root, mem', tabs) && Widened(root, mem', tabs)
  {
    assert Above(mem, tabs, KeyOf(p, 2)) == Slot(mem, tabs, p, 3);
    PutWidened(root, mem, tabs, KeyOf(p, 2), p.i2, e);
  }

  // ---------------------------------------------------------------------------
  // Flags of an entry that points at a table
  // ---------------------------------------------------------------------------

  lemma SetFlags(root: nat, mem: Memory, tabs: Tables, p: Page, l: nat, fl: Flags)
    requires WellFormed(root, mem, tabs) && Good(p) && 2 <= l <= 4 && KeyOf(p, l) in tabs && KeyOf(p, l - 1) in tabs
    requires fl.present && !fl.huge
    ensures var mem' := Put(mem, tabs[KeyOf(p, l)], Index(p, l), Entry(Slot(mem, tabs, p, l).addr, fl));
            && WellFormed(root, mem', tabs)
            && Flat(root, mem', tabs) == Flat(root, mem, tabs)
  {
    var e := Entry(Slot(mem, tabs, p, l).addr, fl);
    PathAbove(root, mem, tabs, p, l - 1);
    assert KeyOf(p, l).Child(Index(p, l)) == KeyOf(p, l - 1);
    PutWellFormed(root, mem, tabs, KeyOf(p, l), Index(p, l), e);
    var mem' := Put(mem, tabs[KeyOf(p, l)], Index(p, l), e);
    forall q: Page | Good(q)
      ensures LeafOf(root, mem', tabs, q) == LeafOf(root, mem, tabs, q)
    {
      if l == 4 {
        PutRootLeaf(root, mem, tabs, Index(p, l), e, q);
      } else {
        PutLeaf(root, mem, tabs, p, l, e, q);
      }
    }
  }

  /** PML4 slots never decide a leaf. */
  lemma PutRootLeaf(root: nat, mem: Memory, tabs: Tables, j: nat, e: Entry, q: Page)
    requires Shape(root, mem, tabs) && Good(q) && j < ENTRIES && Shape(root, Put(mem, root, j, e), tabs)
    ensures LeafOf(root, Put(mem, root, j, e), tabs, q) == LeafOf(root, mem, tabs, q)
  {
  }

  lemma SetFlagsWidened(root: nat, mem: Memory, tabs: Tables, p: Page, l: nat, fl: Flags)
    requires WellFormed(root, mem, tabs) && Widened(root, mem, tabs)
    requires Good(p) && 2 <= l <= 4 && KeyOf(p, l) in tabs && KeyOf(p, l - 1) in tabs
    requires fl.present && !fl.huge && !fl.noExec
    requires var was := Slot(mem, tabs, p, l).flags; (was.user ==> fl.user) && (was.writable ==> fl.writable)
    requires l < 4 ==> KeyOf(p, l + 1) in tabs && Covers(Slot(mem, tabs, p, l + 1).flags, fl)
    ensures var mem' := Put(mem, tabs[KeyOf(p, l)], Index(p, l), Entry(Slot(mem, tabs, p, l).addr, fl));
            Shape(root, mem', tabs) && Widened(root, mem', tabs)
  {
    if l < 4 { assert Above(mem, tabs, KeyOf(p, l)) == Slot(mem, tabs, p, l + 1); }
    PutWidened(root, mem, tabs, KeyOf(p, l), Index(p, l), Entry(Slot(mem, tabs, p, l).addr, fl));
  }

  // ---------------------------------------------------------------------------
  // A fresh table
  // ---------------------------------------------------------------------------

  /** An unused slot `j` of table `c` in which the free frame `f` can be hung. */
  ghost predicate Vacant(root: nat, mem: Memory, tabs: Tables, c: Key, j: nat, f: nat) {
    && WellFormed(root, mem, tabs) && c in tabs && !c.PT? && j < ENTRIES
    && !(c.PML4? && j == RECURSIVE_INDEX)
    && mem[tabs[c]][j] == UNUSED && c.Child(j) !in tabs
    && f != 0 && f !in mem
  }

  /** Memory after hanging a zeroed table in the slot. */
  ghost function Hang(mem: Memory, tabs: Tables, c: Key, j: nat, f: nat, fl: Flags): Memory
    requires c in tabs && tabs[c] in mem && j < |mem[tabs[c]]| && f !in mem
  {
    Put(mem[f := ZeroTable()], tabs[c], j, Entry(f, fl))
  }

  /** Slots of the tables that were there before are what they were, except the one
      that was unused; the new table is all unused. */
  lemma HangOther(root: nat, mem: Memory, tabs: Tables, c: Key, j: nat, f: nat, fl: Flags, k: Key, i: nat)
    requires Vacant(root, mem, tabs, c, j, f) && k in tabs[c.Child(j) := f] && i < ENTRIES
    ensures var t := tabs[c.Child(j) := f][k];
            && t in Hang(mem, tabs, c, j, f, fl) && |Hang(mem, tabs, c, j, f, fl)[t]| == ENTRIES
            && Hang(mem, tabs, c, j, f, fl)[t][i] ==
                 (if k == c.Child(j) then UNUSED else if k == c && i == j then Entry(f, fl) else mem[tabs[k]][i])
  {
    assert ZeroTable()[i] in ZeroTable();
  }

  lemma HangShape(root: nat, mem: Memory, tabs: Tables, c: Key, j: nat, f: nat, fl: Flags)
    requires Vacant(root, mem, tabs, c, j, f)
    ensures Shape(root, Hang(mem, tabs, c, j, f, fl), tabs[c.Child(j) := f])
    ensures Rooted(tabs[c.Child(j) := f])
  {
    var k := c.Child(j);
    assert k.Parent() == c && k.Last() == j;
  }

  lemma HangWellFormed(root: nat, mem: Memory, tabs: Tables, c: Key, j: nat, f: nat, fl: Flags)
    requires Vacant(root, mem, tabs, c, j, f) && fl.present && !fl.huge
    ensures WellFormed(root, Hang(mem, tabs, c, j, f, fl), tabs[c.Child(j) := f])
  {
    var mem': Memory := Hang(mem, tabs, c, j, f, fl);
    var tabs' := tabs[c.Child(j) := f];
    HangShape(root, mem, tabs, c, j, f, fl);
    assert Linked(mem', tabs') by {
      forall k: Key, i: nat | k in tabs' && i < ENTRIES && !(k.PML4? && i == RECURSIVE_INDEX)
        ensures EntryOk(mem'[tabs'[k]][i], k, i, tabs')
      {
        HangEntryOk(root, mem, tabs, c, j, f, fl, k, i);
      }
    }
    HangOther(root, mem, tabs, c, j, f, fl, PML4, RECURSIVE_INDEX);
  }

  lemma HangEntryOk(root: nat, mem: Memory, tabs: Tables, c: Key, j: nat, f: nat, fl: Flags, k: Key, i: nat)
    requires Vacant(root, mem, tabs, c, j, f) && fl.present && !fl.huge
    requires k in tabs[c.Child(j) := f] && i < ENTRIES && !(k.PML4? && i == RECURSIVE_INDEX)
    requires tabs[c.Child(j) := f][k] in Hang(mem, tabs, c, j, f, fl)
    requires |Hang(mem, tabs, c, j, f, fl)[tabs[c.Child(j) := f][k]]| == ENTRIES
    ensures var tabs' := tabs[c.Child(j) := f];
            EntryOk(Hang(mem, tabs, c, j, f, fl)[tabs'[k]][i], k, i, tabs')
  {
    HangOther(root, mem, tabs, c, j, f, fl, k, i);
    if k == c.Child(j) {
      if !k.PT? { assert k.Child(i).Parent() == k; }
    } else {
      assert EntryOk(mem[tabs[k]][i], k, i, tabs);
      assert !k.PT? && k.Child(i) == c.Child(j) ==> k == c && i == j;
    }
  }

  lemma HangLeaf(root: nat, mem: Memory, tabs: Tables, c: Key, j: nat, f: nat, fl: Flags, q: Page)
    requires Vacant(root, mem, tabs, c, j, f) && Good(q)
    requires Shape(root, Hang(mem, tabs, c, j, f, fl), tabs[c.Child(j) := f])
    ensures LeafOf(root, Hang(mem, tabs, c, j, f, fl), tabs[c.Child(j) := f], q) == LeafOf(root, mem, tabs, q)
  {
    Chain(tabs, q);
    HangShape(root, mem, tabs, c, j, f, fl);
    Chain(tabs[c.Child(j) := f], q);
    if KeyOf(q, 1) in tabs[c.Child(j) := f] {
      HangOther(root, mem, tabs, c, j, f, fl, KeyOf(q, 1), q.i1);
    } else if KeyOf(q, 2) in tabs[c.Child(j) := f] {
      HangOther(root, mem, tabs, c, j, f, fl, KeyOf(q, 2), q.i2);
    } else if KeyOf(q, 3) in tabs[c.Child(j) := f] {
      HangOther(root, mem, tabs, c, j, f, fl, KeyOf(q, 3), q.i3);
    }
  }

  lemma AddTable(root: nat, mem: Memory, tabs: Tables, c: Key, j: nat, f: nat, fl: Flags)
    requires Vacant(root, mem, tabs, c, j, f) && fl.present && !fl.huge
    ensures var mem' := Hang(mem, tabs, c, j, f, fl);
            var tabs' := tabs[c.Child(j) := f];
            && WellFormed(root, mem', tabs')
            && Flat(root, mem', tabs') == Flat(root, mem, tabs)
  {
    HangWellFormed(root, mem, tabs, c, j, f, fl);
    forall q: Page | Good(q)
      ensures LeafOf(root, Hang(mem, tabs, c, j, f, fl), tabs[c.Child(j) := f], q) == LeafOf(root, mem, tabs, q)
    {
      HangLeaf(root, mem, tabs, c, j, f, fl, q);
    }
  }

  lemma AddTableWidened(root: nat, mem: Memory, tabs: Tables, c: Key, j: nat, f: nat, fl: Flags)
    requires Vacant(root, mem, tabs, c, j, f) && Widened(root, mem, tabs)
    requires !fl.noExec && (!c.PML4? ==> Covers(Above(mem, tabs, c).flags, fl))
    ensures var mem' := Hang(mem, tabs, c, j, f, fl);
            var tabs' := tabs[c.Child(j) := f];
            Shape(root, mem', tabs') && Rooted(tabs') && Widened(root, mem', tabs')
  {
    var mem': Memory := Hang(mem, tabs, c, j, f, fl);
    var tabs' := tabs[c.Child(j) := f];
    HangShape(root, mem, tabs, c, j, f, fl);
    forall k: Key | k in tabs' && !k.PML4?
      ensures !Above(mem', tabs', k).flags.noExec
    {
      HangAbove(root, mem, tabs, c, j, f, fl, k);
    }
    forall k: Key, i: nat | k in tabs' && !k.PML4? && i < ENTRIES && mem'[tabs'[k]][i].flags.present
      ensures Covers(Above(mem', tabs', k).flags, mem'[tabs'[k]][i].flags)
    {
      HangOther(root, mem, tabs, c, j, f, fl, k, i);
      HangAbove(root, mem, tabs, c, j, f, fl, k);
    }
  }

  lemma HangAbove(root: nat, mem: Memory, tabs: Tables, c: Key, j: nat, f: nat, fl: Flags, k: Key)
    requires Vacant(root, mem, tabs, c, j, f) && k in tabs[c.Child(j) := f] && !k.PML4?
    requires Shape(root, Hang(mem, tabs, c, j, f, fl), tabs[c.Child(j) := f]) && Rooted(tabs[c.Child(j) := f])
    ensures Above(Hang(mem, tabs, c, j, f, fl), tabs[c.Child(j) := f], k) ==
            if k == c.Child(j) then Entry(f, fl) else Above(mem, tabs, k)
  {
    HangOther(root, mem, tabs, c, j, f, fl, k.Parent(), k.Last());
    assert k.Parent().Child(k.Last()) == k;
  }

  // ---------------------------------------------------------------------------
  // Dropping an empty table
  // ---------------------------------------------------------------------------

  ghost predicate IsEmptyTable(t: Table) {
    forall e <- t :: !e.flags.present
  }

  /** A table other than the root with no present entry. */
  ghost predicate Droppable(root: nat, mem: Memory, tabs: Tables, c: Key) {
    WellFormed(root, mem, tabs) && c in tabs && !c.PML4? && IsEmptyTable(mem[tabs[c]])
  }

  /** Memory without the table, its parent slot cleared. */
  ghost function Prune(mem: Memory, tabs: Tables, c: Key): Memory
    requires c in tabs && !c.PML4? && c.Parent() in tabs && tabs[c.Parent()] in mem
    requires c.Last() < |mem[tabs[c.Parent()]]|
  {
    Put(mem, tabs[c.Parent()], c.Last(), UNUSED) - {tabs[c]}
  }

  lemma NoChildren(root: nat, mem: Memory, tabs: Tables, c: Key, k: Key)
    requires Droppable(root, mem, tabs, c) && k in tabs && !k.PML4?
    ensures k.Parent() != c
  {
    var e := mem[tabs[c]][k.Last()];
    assert e in mem[tabs[c]];
    assert EntryOk(e, c, k.Last(), tabs);
    assert k.Parent() == c ==> c.Child(k.Last()) == k;
  }

  lemma PruneOther(root: nat, mem: Memory, tabs: Tables, c: Key, k: Key, i: nat)
    requires Droppable(root, mem, tabs, c) && k in tabs && k != c && i < ENTRIES
    ensures tabs[k] in Prune(mem, tabs, c) && |Prune(mem, tabs, c)[tabs[k]]| == ENTRIES
    ensures Prune(mem, tabs, c)[tabs[k]][i] == if k == c.Parent() && i == c.Last() then UNUSED else mem[tabs[k]][i]
  {
    PutOther(root, mem, tabs, c.Parent(), c.Last(), UNUSED, k, i);
  }

  lemma PruneShape(root: nat, mem: Memory, tabs: Tables, c: Key)
    requires Droppable(root, mem, tabs, c)
    ensures Shape(root, Prune(mem, tabs, c), tabs - {c}) && Rooted(tabs - {c})
  {
    var tabs' := tabs - {c};
    forall k: Key | k in tabs'
      ensures k.PML4? || k.Parent() in tabs'
    {
      if !k.PML4? { NoChildren(root, mem, tabs, c, k); }
    }
  }

  lemma PruneWellFormed(root: nat, mem: Memory, tabs: Tables, c: Key)
    requires Droppable(root, mem, tabs, c)
    ensures WellFormed(root, Prune(mem, tabs, c), tabs - {c})
  {
    var mem': Memory := Prune(mem, tabs, c);
    var tabs' := tabs - {c};
    PruneShape(root, mem, tabs, c);
    assert Linked(mem', tabs') by {
      forall k: Key, i: nat | k in tabs' && i < ENTRIES && !(k.PML4? && i == RECURSIVE_INDEX)
        ensures EntryOk(mem'[tabs'[k]][i], k, i, tabs')
      {
        PruneOther(root, mem, tabs, c, k, i);
        assert EntryOk(mem[tabs[k]][i], k, i, tabs);
        assert !k.PT? && k.Child(i) == c ==> k == c.Parent() && i == c.Last();
        assert c.Parent().Child(c.Last()) == c;
      }
    }
    PruneOther(root, mem, tabs, c, PML4, RECURSIVE_INDEX);
  }

  lemma PruneLeaf(root: nat, mem: Memory, tabs: Tables, c: Key, q: Page)
    requires Droppable(root, mem, tabs, c) && Good(q)
    requires Shape(root, Prune(mem, tabs, c), tabs - {c})
    ensures LeafOf(root, Prune(mem, tabs, c), tabs - {c}, q) == LeafOf(root, mem, tabs, q)
  {
    Chain(tabs, q);
    var tabs' := tabs - {c};
    var l := c.Level();
    if c == KeyOf(q, l) {
      PruneLeafBelow(root, mem, tabs, c, q);
    } else if KeyOf(q, 1) in tabs {
      PruneOther(root, mem, tabs, c, KeyOf(q, 1), q.i1);
    } else if KeyOf(q, 2) in tabs {
      PruneOther(root, mem, tabs, c, KeyOf(q, 2), q.i2);
    } else if KeyOf(q, 3) in tabs {
      PruneOther(root, mem, tabs, c, KeyOf(q, 3), q.i3);
    }
  }

  lemma PruneLeafBelow(root: nat, mem: Memory, tabs: Tables, c: Key, q: Page)
    requires Droppable(root, mem, tabs, c) && Good(q) && c == KeyOf(q, c.Level())
    requires Shape(root, Prune(mem, tabs, c), tabs - {c})
    ensures LeafOf(root, Prune(mem, tabs, c), tabs - {c}, q) == None == LeafOf(root, mem, tabs, q)
  {
    Chain(tabs, q);
    var l := c.Level();
    assert Slot(mem, tabs, q, l) in mem[tabs[c]];
    forall k | k in tabs && !k.PML4?
      ensures k.Parent() != c
    {
      NoChildren(root, mem, tabs, c, k);
    }
    assert l > 1 ==> KeyOf(q, l - 1).Parent() == c;
    if l < 3 {
      PruneOther(root, mem, tabs, c, KeyOf(q, l + 1), Index(q, l + 1));
    }
  }

  lemma DropTable(root: nat, mem: Memory, tabs: Tables, c: Key)
    requires Droppable(root, mem, tabs, c)
    ensures var mem' := Prune(mem, tabs, c);
            var tabs' := tabs - {c};
            && WellFormed(root, mem', tabs')
            && Flat(root, mem', tabs') == Flat(root, mem, tabs)
  {
    PruneWellFormed(root, mem, tabs, c);
    forall q: Page | Good(q)
      ensures LeafOf(root, Prune(mem, tabs, c), tabs - {c}, q) == LeafOf(root, mem, tabs, q)
    {
      PruneLeaf(root, mem, tabs, c, q);
    }
  }

  lemma DropTableWidened(root: nat, mem: Memory, tabs: Tables, c: Key)
    requires Droppable(root, mem, tabs, c) && Widened(root, mem, tabs)
    ensures Shape(root, Prune(mem, tabs, c), tabs - {c}) && Rooted(tabs - {c})
    ensures Widened(root, Prune(mem, tabs, c), tabs - {c})
  {
    var mem': Memory := Prune(mem, tabs, c);
    var tabs' := tabs - {c};
    PruneShape(root, mem, tabs, c);
    forall k: Key | k in tabs' && !k.PML4?
      ensures Above(mem', tabs', k) == Above(mem, tabs, k)
    {
      NoChildren(root, mem, tabs, c, k);
      PruneOther(root, mem, tabs, c, k.Parent(), k.Last());
      assert k.Parent().Child(k.Last()) == k && c.Parent().Child(c.Last()) == c;
    }
    forall k: Key, i: nat | k in tabs' && !k.PML4? && i < ENTRIES && mem'[tabs'[k]][i].flags.present
      ensures Covers(Above(mem', tabs', k).flags, mem'[tabs'[k]][i].flags)
    {
      PruneOther(root, mem, tabs, c, k, i);
    }
  }
}
