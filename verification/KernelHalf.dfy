/** New user page tables and the kernel half they share (`create_user_page_table` in
    `memory/paging.rs`). */
module KernelHalf {
  import opened Common
  import opened Paging
  import opened TableTree
  import opened TableEdit
  import opened AddressSpaces
  import opened PageUnmapping
  import opened Conservation

  const HIGHER_HALF_START: nat := 256

  /** The entry of a new PML4 in slot `i`. */
  function UpperEntry(current: Table, root: nat, i: nat): Entry
    requires |current| == ENTRIES && i < ENTRIES
  {
    if i == RECURSIVE_INDEX then SelfEntry(root) else if i < HIGHER_HALF_START then UNUSED else current[i]
  }

  /** A place for a table of the kernel half. */
  predicate KernelKey(k: Key) {
    !k.PML4? && k.a >= HIGHER_HALF_START
  }

  /** The tables a new PML4 in frame `root` sees. */
  ghost function SharedTables(tabs: Tables, root: nat): Tables {
    map k | k in tabs && (k.PML4? || KernelKey(k)) :: if k.PML4? then root else tabs[k]
  }

  /** Two PML4s over one memory with the same kernel-half slots. */
  ghost predicate SameUpper(mem: Memory, root: nat, root': nat)
    requires root in mem && root' in mem && |mem[root]| == ENTRIES && |mem[root']| == ENTRIES
  {
    forall i :: HIGHER_HALF_START <= i < ENTRIES && i != RECURSIVE_INDEX ==> mem[root][i] == mem[root'][i]
  }

  predicate KernelPage(q: Page) {
    Good(q) && q.i4 >= HIGHER_HALF_START && !InWindow(q)
  }

  /** One level down from equal entries: the same table, or none, in both trees. */
  lemma SameBelow(root: nat, root': nat, mem: Memory, tabs: Tables, tabs': Tables, q: Page, l: nat)
    requires WellFormed(root, mem, tabs) && WellFormed(root', mem, tabs') && Good(q) && !InWindow(q) && 2 <= l <= 4
    requires KeyOf(q, l) in tabs && KeyOf(q, l) in tabs' && Slot(mem, tabs, q, l) == Slot(mem, tabs', q, l)
    ensures KeyOf(q, l - 1) in tabs <==> KeyOf(q, l - 1) in tabs'
    ensures KeyOf(q, l - 1) in tabs ==> tabs[KeyOf(q, l - 1)] == tabs'[KeyOf(q, l - 1)]
  {
    PathBelow(root, mem, tabs, q, l);
    PathBelow(root', mem, tabs', q, l);
  }

  /** Address spaces whose PML4s agree in the kernel half translate every kernel page
      alike, whatever edits the shared tables have seen. */
  lemma KernelHalfShared(root: nat, root': nat, mem: Memory, tabs: Tables, tabs': Tables, q: Page)
    requires WellFormed(root, mem, tabs) && WellFormed(root', mem, tabs') && SameUpper(mem, root, root')
    requires KernelPage(q)
    ensures Flat(root, mem, tabs)[q] == Flat(root', mem, tabs')[q]
  {
    hide Linked, Rooted;
    assert Slot(mem, tabs, q, 4) == mem[root][q.i4] == mem[root'][q.i4] == Slot(mem, tabs', q, 4);
    Chain(tabs, q);
    Chain(tabs', q);
    SameBelow(root, root', mem, tabs, tabs', q, 4);
    if KeyOf(q, 3) in tabs {
      SameBelow(root, root', mem, tabs, tabs', q, 3);
      if KeyOf(q, 2) in tabs {
        SameBelow(root, root', mem, tabs, tabs', q, 2);
      }
    }
  }

  /** The entry for each slot of each table seen from the new root is in order. */
  lemma SharedEntryOk(root: nat, mem: Memory, tabs: Tables, f: nat, t: Table, k: Key, i: nat)
    requires WellFormed(root, mem, tabs) && f !in mem && f != 0 && |t| == ENTRIES
    requires forall j: nat :: j < ENTRIES ==> t[j] == UpperEntry(mem[root], f, j)
    requires k in SharedTables(tabs, f) && i < ENTRIES && !(k.PML4? && i == RECURSIVE_INDEX)
    ensures var tabs' := SharedTables(tabs, f); EntryOk(mem[f := t][tabs'[k]][i], k, i, tabs')
  {
    var tabs' := SharedTables(tabs, f);
    assert EntryOk(mem[tabs[k]][i], k, i, tabs);
    if k.PML4? {
      assert tabs'[k] == f && t[i] == UpperEntry(mem[root], f, i);
      assert k.Child(i) == PDPT(i);
    } else if !k.PT? {
      assert KernelKey(k.Child(i)) && k.Child(i).a == k.a;
      assert k.Child(i) in tabs' <==> k.Child(i) in tabs;
    }
  }

  /** The new table tree: well formed with its own self-map, nothing mapped in the
      user half, and the kernel half shared. */
  lemma NewTree(root: nat, mem: Memory, tabs: Tables, f: nat, t: Table)
    requires WellFormed(root, mem, tabs) && f !in mem && f != 0 && |t| == ENTRIES
    requires forall j: nat :: j < ENTRIES ==> t[j] == UpperEntry(mem[root], f, j)
    ensures var mem' := mem[f := t];
            var tabs' := SharedTables(tabs, f);
            && WellFormed(f, mem', tabs') && WellFormed(root, mem', tabs) && SameUpper(mem', root, f)
            && (forall k <- tabs' :: !UserKey(k))
            && (forall q :: UserPage(q) ==> Flat(f, mem', tabs')[q] == None)
            && Flat(root, mem', tabs) == Flat(root, mem, tabs)
  {
    NewTreeShape(root, mem, tabs, f, t);
    NewTreeLinked(root, mem, tabs, f, t);
    OldTreeKept(root, mem, tabs, f, t);
    NewTreeEmpty(root, mem, tabs, f, t);
  }

  lemma NewTreeShape(root: nat, mem: Memory, tabs: Tables, f: nat, t: Table)
    requires Shape(root, mem, tabs) && Rooted(tabs) && f !in mem && f != 0 && |t| == ENTRIES
    ensures Shape(f, mem[f := t], SharedTables(tabs, f)) && Rooted(SharedTables(tabs, f))
  {
    var tabs' := SharedTables(tabs, f);
    forall k <- tabs' | !k.PML4?
      ensures k.Parent() in tabs'
    {
      assert k.PDPT? ==> k.Parent() == PML4;
    }
  }

  lemma NewTreeLinked(root: nat, mem: Memory, tabs: Tables, f: nat, t: Table)
    requires WellFormed(root, mem, tabs) && f !in mem && f != 0 && |t| == ENTRIES
    requires forall j: nat :: j < ENTRIES ==> t[j] == UpperEntry(mem[root], f, j)
    requires Shape(f, mem[f := t], SharedTables(tabs, f))
    ensures Linked(mem[f := t], SharedTables(tabs, f))
  {
    hide EntryOk, UpperEntry, Rooted;
    var mem': Memory := mem[f := t];
    var tabs' := SharedTables(tabs, f);
    forall k: Key, i: nat | k in tabs' && i < ENTRIES && !(k.PML4? && i == RECURSIVE_INDEX)
      ensures EntryOk(mem'[tabs'[k]][i], k, i, tabs')
    {
      SharedEntryOk(root, mem, tabs, f, t, k, i);
    }
  }

  lemma OldTreeKept(root: nat, mem: Memory, tabs: Tables, f: nat, t: Table)
    requires WellFormed(root, mem, tabs) && f !in mem && |t| == ENTRIES
    ensures WellFormed(root, mem[f := t], tabs) && Flat(root, mem[f := t], tabs) == Flat(root, mem, tabs)
  {
    hide EntryOk;
    var mem': Memory := mem[f := t];
    assert forall k <- tabs :: mem'[tabs[k]] == mem[tabs[k]];
    forall q: Page | Good(q)
      ensures LeafOf(root, mem', tabs, q) == LeafOf(root, mem, tabs, q)
    {
    }
  }

  lemma NewTreeEmpty(root: nat, mem: Memory, tabs: Tables, f: nat, t: Table)
    requires Shape(root, mem, tabs) && Shape(f, mem[f := t], SharedTables(tabs, f))
    ensures forall k <- SharedTables(tabs, f) :: !UserKey(k)
    ensures forall q :: UserPage(q) ==> Flat(f, mem[f := t], SharedTables(tabs, f))[q] == None
  {
  }

  /** Rights stay exact in the new tree. */
  lemma NewTreeWidened(root: nat, mem: Memory, tabs: Tables, f: nat, t: Table)
    requires WellFormed(root, mem, tabs) && Widened(root, mem, tabs) && f !in mem && f != 0 && |t| == ENTRIES
    requires forall j: nat :: j < ENTRIES ==> t[j] == UpperEntry(mem[root], f, j)
    ensures Shape(f, mem[f := t], SharedTables(tabs, f)) && Rooted(SharedTables(tabs, f))
    ensures Widened(f, mem[f := t], SharedTables(tabs, f))
  {
    hide Linked;
    NewTreeShape(root, mem, tabs, f, t);
    var mem': Memory := mem[f := t];
    var tabs' := SharedTables(tabs, f);
    forall k: Key | k in tabs' && !k.PML4?
      ensures Above(mem', tabs', k) == Above(mem, tabs, k) && mem'[tabs'[k]] == mem[tabs[k]]
    {
      assert k in tabs && k.Parent() in tabs;
    }
  }

  /** `create_user_page_table`. */
  method CreateUserPageTable(a: AddressSpace) returns (f: nat)
    requires a.Valid()
    modifies a
    ensures a.Valid() && a.Translations() == old(a.Translations()) && a.tabs == old(a.tabs)
    ensures f !in old(a.used) && a.used == old(a.used) + {f}
    ensures var tabs := SharedTables(a.tabs, f);
            && WellFormed(f, a.mem, tabs)
            && SameUpper(a.mem, a.root, f)
            && (forall q :: UserPage(q) ==> Flat(f, a.mem, tabs)[q] == None)
            && (forall q :: KernelPage(q) ==> Flat(f, a.mem, tabs)[q] == a.Translations()[q])
  {
    hide Linked, Rooted, LeafOf, EntryOk;
    ghost var s := a.Now();
    f := a.AllocateFrame();
    var t := ZeroTable();
    var current := a.mem[a.root];
    var i := HIGHER_HALF_START;
    while i < ENTRIES
      invariant HIGHER_HALF_START <= i <= ENTRIES && |t| == ENTRIES
      invariant forall j: nat :: j < ENTRIES ==>
                  t[j] == if HIGHER_HALF_START <= j < i && j != RECURSIVE_INDEX then current[j] else UNUSED
    {
      if i != RECURSIVE_INDEX {
        t := t[i := current[i]];
      }
      i := i + 1;
    }
    t := t[RECURSIVE_INDEX := SelfEntry(f)];
    a.mem := a.mem[f := t];
    NewTree(a.root, s.mem, a.tabs, f, t);
    forall q | KernelPage(q)
      ensures Flat(f, a.mem, SharedTables(a.tabs, f))[q] == Flat(a.root, a.mem, a.tabs)[q]
    {
      KernelHalfShared(a.root, f, a.mem, a.tabs, SharedTables(a.tabs, f), q);
    }
  }
}
