/** Where the physical frames of a user address space are: page tables, demand-paged
    leaves, and everything else. */
module Conservation {
  import opened Common
  import opened Paging
  import opened TableTree
  import opened TableEdit
  import opened AddressSpaces
  import opened PageMapping
  import opened PageUnmapping
  import LargeRegions

  /** Pages of the lower, per-process half of the address space. */
  predicate UserPage(q: Page) {
    Good(q) && q.i4 < 256
  }

  predicate UserKey(k: Key) {
    !k.PML4? && k.a < 256
  }

  /** No user table is empty. */
  ghost predicate Tidy(s: Snapshot) {
    forall k <- s.tabs :: UserKey(k) ==> Inhabited(s.mem, s.tabs[k])
  }

  // ---------------------------------------------------------------------------
  // In a tidy tree the translations determine the tables
  // ---------------------------------------------------------------------------

  /** Page `q` is translated by a leaf in, or below, the table in place `k`. */
  ghost predicate Needs(flat: FlatMap, q: Page, k: Key) {
    q in flat && flat[q].Some? && flat[q].value.level <= k.Level() <= 3 && k == KeyOf(q, k.Level())
  }

  /** Some page of table `k` with entry `i` filled. */
  function PageVia(k: Key, i: nat): Page
    requires !k.PML4?
  {
    if k.PT? then Page(k.a, k.b, k.c, i) else if k.PD? then Page(k.a, k.b, i, 0) else Page(k.a, i, 0, 0)
  }

  lemma KeyBounds(tabs: Tables, k: Key)
    requires Rooted(tabs) && k in tabs && !k.PML4?
    ensures k.a < ENTRIES && (k.PDPT? || k.b < ENTRIES) && (k.PT? ==> k.c < ENTRIES)
  {
    var up := k.Parent();
    if !up.PML4? {
      var top := up.Parent();
      assert up in tabs && (top.PML4? || top in tabs);
    }
  }

  /** A present entry of a table that is a leaf translates a page of that table. */
  lemma LeafVia(root: nat, s: Snapshot, k: Key, i: nat)
    requires WellFormed(root, s.mem, s.tabs) && k in s.tabs && !k.PML4? && i < ENTRIES
    requires s.mem[s.tabs[k]][i].flags.present && (k.PT? || s.mem[s.tabs[k]][i].flags.huge)
    ensures Needs(Flat(root, s.mem, s.tabs), PageVia(k, i), k)
  {
    KeyBounds(s.tabs, k);
    var q := PageVia(k, i);
    Chain(s.tabs, q);
    assert EntryOk(s.mem[s.tabs[k]][i], k, i, s.tabs);
    if !k.PT? { assert k.Child(i) == KeyOf(q, k.Level() - 1); }
  }

  /** Every table of a tidy tree serves some translated page. */
  lemma {:induction false} TableLeads(root: nat, s: Snapshot, k: Key) returns (q: Page)
    requires WellFormed(root, s.mem, s.tabs) && Tidy(s) && k in s.tabs && UserKey(k)
    ensures Needs(Flat(root, s.mem, s.tabs), q, k)
    decreases k.Level()
  {
    assert Inhabited(s.mem, s.tabs[k]);
    var i: nat :| i < |s.mem[s.tabs[k]]| && s.mem[s.tabs[k]][i].flags.present;
    var e := s.mem[s.tabs[k]][i];
    if k.PT? || e.flags.huge {
      q := PageVia(k, i);
      LeafVia(root, s, k, i);
    } else {
      assert EntryOk(e, k, i, s.tabs);
      q := TableLeads(root, s, k.Child(i));
    }
  }

  lemma NeededIsThere(root: nat, s: Snapshot, q: Page, k: Key)
    requires WellFormed(root, s.mem, s.tabs) && Needs(Flat(root, s.mem, s.tabs), q, k)
    ensures k in s.tabs
  {
    Chain(s.tabs, q);
  }

  /** The user tables of a tidy tree are exactly those its translations need. */
  lemma TidyTables(root: nat, s: Snapshot)
    requires WellFormed(root, s.mem, s.tabs) && Tidy(s)
    ensures forall k :: UserKey(k) ==> (k in s.tabs <==> exists q :: Needs(Flat(root, s.mem, s.tabs), q, k))
  {
    hide Linked, Rooted, LeafOf, Inhabited, Needs;
    forall k | UserKey(k)
      ensures k in s.tabs <==> exists q :: Needs(Flat(root, s.mem, s.tabs), q, k)
    {
      if k in s.tabs { var q := TableLeads(root, s, k); }
      if q :| Needs(Flat(root, s.mem, s.tabs), q, k) { NeededIsThere(root, s, q, k); }
    }
  }

  // ---------------------------------------------------------------------------
  // The account
  // ---------------------------------------------------------------------------

  ghost function UserTableFrames(s: Snapshot): set<nat> {
    set k | k in s.tabs && UserKey(k) :: s.tabs[k]
  }

  /** Pages the fault handler mapped and nobody freed since: 4 KB leaves of the user
      half, no two with the same frame. */
  ghost predicate DemandLeaves(flat: FlatMap, demand: set<Page>) {
    && (forall q <- demand :: UserPage(q) && q in flat && IsSmall(flat[q]))
    && (forall q <- demand, r <- demand :: flat[q].value.entry.addr == flat[r].value.entry.addr ==> q == r)
  }

  ghost function DemandFrames(flat: FlatMap, demand: set<Page>): set<nat>
    requires DemandLeaves(flat, demand)
  {
    set q | q in demand :: flat[q].value.entry.addr
  }

  /** Every frame in use is a background frame, a user page table or a demand-paged
      leaf, and only one of the three. */
  ghost predicate Balanced(s: Snapshot, leaves: set<nat>, bg: set<nat>) {
    var tables := UserTableFrames(s);
    && s.used == bg + tables + leaves
    && bg !! tables && bg !! leaves && tables !! leaves
    && s.mem.Keys <= bg + tables
  }

  ghost predicate Conserved(root: nat, s: Snapshot, demand: set<Page>, bg: set<nat>) {
    && WellFormed(root, s.mem, s.tabs) && Tidy(s)
    && DemandLeaves(Flat(root, s.mem, s.tabs), demand)
    && Balanced(s, DemandFrames(Flat(root, s.mem, s.tabs), demand), bg)
  }

  /** Without demand pages the background is whatever is no user table. */
  lemma NothingOnDemand(root: nat, s: Snapshot)
    requires WellFormed(root, s.mem, s.tabs) && Tidy(s) && UserTableFrames(s) <= s.used && s.mem.Keys <= s.used
    ensures Conserved(root, s, {}, s.used - UserTableFrames(s))
  {
    hide Linked, Rooted, Tidy, UserTableFrames, LeafOf;
    assert DemandFrames(Flat(root, s.mem, s.tabs), {}) == {};
  }

  /** With every user page unmapped, all frames are back: no table and no leaf is
      left, only the background frames are in use. */
  lemma NothingLeft(root: nat, s: Snapshot, demand: set<Page>, bg: set<nat>)
    requires Conserved(root, s, demand, bg)
    requires forall q :: UserPage(q) ==> Flat(root, s.mem, s.tabs)[q] == None
    ensures s.used == bg && demand == {} && forall k <- s.tabs :: !UserKey(k)
  {
    hide Linked, LeafOf, Inhabited;
    var flat := Flat(root, s.mem, s.tabs);
    forall k <- s.tabs
      ensures !UserKey(k)
    {
      if UserKey(k) {
        var q := TableLeads(root, s, k);
        NeededUser(flat, q, k);
        assert false;
      }
    }
    assert UserTableFrames(s) == {};
    assert DemandFrames(flat, demand) == {};
  }

  lemma NeededUser(flat: FlatMap, q: Page, k: Key)
    requires Needs(flat, q, k) && UserKey(k) && (Good(q) <==> q in flat)
    ensures UserPage(q) && flat[q].Some?
  {
  }

  // ---------------------------------------------------------------------------
  // Steps
  // ---------------------------------------------------------------------------

  /** All pages of a run are user pages. */
  ghost predicate UserRun(first: nat, n: nat) {
    first + n <= PAGES && forall q :: Good(q) && InRun(q, first, n) ==> UserPage(q)
  }

  lemma WalkIsUser(k: Key, first: nat, n: nat)
    requires UserRun(first, n) && OnWalk(k, first, n)
    ensures UserKey(k)
  {
    var q :| Good(q) && InRun(q, first, n) && k == KeyOf(q, k.Level());
    assert UserPage(q);
  }

  /** Mapping pages of the user half adds only user tables. */
  lemma GrownTables(s: Snapshot, s': Snapshot, first: nat, n: nat)
    requires Grown(s, s', first, n) && UserRun(first, n)
    ensures UserTableFrames(s') == UserTableFrames(s) + NewFrames(s, s')
  {
    hide Inhabited, InhabitedKept, UserRun, OnWalk;
    forall k <- s'.tabs | k !in s.tabs
      ensures UserKey(k)
    {
      WalkIsUser(k, first, n);
    }
    forall f
      ensures f in UserTableFrames(s') <==> f in UserTableFrames(s) || f in NewFrames(s, s')
    {
      if f in UserTableFrames(s') {
        var k :| k in s'.tabs && UserKey(k) && s'.tabs[k] == f;
        if k in s.tabs { assert s.tabs[k] == f; }
      }
      if f in UserTableFrames(s) {
        var k :| k in s.tabs && UserKey(k) && s.tabs[k] == f;
        assert k in s'.tabs && s'.tabs[k] == f;
      }
      if f in NewFrames(s, s') {
        var k :| k in s'.tabs && k !in s.tabs && s'.tabs[k] == f;
        assert UserKey(k);
      }
    }
  }

  lemma GrownTidy(s: Snapshot, s': Snapshot, first: nat, n: nat)
    requires Grown(s, s', first, n) && Tidy(s)
    ensures Tidy(s')
  {
    hide Inhabited;
  }

  lemma GrownBalanced(s: Snapshot, s': Snapshot, first: nat, n: nat, leaves: set<nat>, bg: set<nat>)
    requires Grown(s, s', first, n) && UserRun(first, n) && Balanced(s, leaves, bg)
    ensures Balanced(s', leaves, bg)
  {
    hide UserTableFrames, UserRun, AddedFor, InhabitedKept;
    GrownTables(s, s', first, n);
    forall f <- NewFrames(s, s')
      ensures f !in s.used
    {
      var k :| k in s'.tabs && k !in s.tabs && s'.tabs[k] == f;
    }
  }

  /** Mapping other memory anywhere in the user half keeps the account. */
  lemma MapConserved(root: nat, s: Snapshot, s': Snapshot, first: nat, n: nat, phys: nat, fl: Flags, demand: set<Page>,
                     bg: set<nat>)
    requires Conserved(root, s, demand, bg) && UserRun(first, n)
    requires Reached(root, s, s', MapRun(Flat(root, s.mem, s.tabs), first, n, phys, fl), first, n)
    ensures Conserved(root, s', demand, bg)
  {
    hide Linked, Rooted, Widened, LeafOf, Inhabited, Grown, Balanced, UserRun, Number;
    var flat, flat' := Flat(root, s.mem, s.tabs), Flat(root, s'.mem, s'.tabs);
    GrownTidy(s, s', first, n);
    assert forall q <- demand :: q in flat' && flat'[q] == flat[q];
    assert DemandFrames(flat', demand) == DemandFrames(flat, demand);
    GrownBalanced(s, s', first, n, DemandFrames(flat, demand), bg);
  }

  lemma BalancedAlloc(s: Snapshot, f: nat, leaves: set<nat>, bg: set<nat>)
    requires Balanced(s, leaves, bg) && f !in s.used
    ensures Balanced(s.(used := s.used + {f}), leaves + {f}, bg)
  {
    assert UserTableFrames(s.(used := s.used + {f})) == UserTableFrames(s);
  }

  /** A demand fault: a fresh frame mapped at an unmapped user page. */
  lemma FaultConserved(root: nat, s: Snapshot, s1: Snapshot, s': Snapshot, p: Page, f: nat, fl: Flags,
                       demand: set<Page>, bg: set<nat>)
    requires Conserved(root, s, demand, bg) && UserPage(p) && UserRun(Number(p), 1)
    requires Flat(root, s.mem, s.tabs)[p] == None && f !in s.used && s1 == s.(used := s.used + {f})
    requires Reached(root, s1, s', Flat(root, s.mem, s.tabs)[p := Some(Leaf(Entry(f, fl), 1))], Number(p), 1)
    ensures Conserved(root, s', demand + {p}, bg)
  {
    hide Linked, Rooted, Widened, LeafOf, Inhabited, Grown, Balanced, UserRun, Number;
    var flat, flat' := Flat(root, s.mem, s.tabs), Flat(root, s'.mem, s'.tabs);
    GrownTidy(s1, s', Number(p), 1);
    DemandAdded(flat, p, f, fl, demand, bg, s);
    BalancedAlloc(s, f, DemandFrames(flat, demand), bg);
    GrownBalanced(s1, s', Number(p), 1, DemandFrames(flat', demand + {p}), bg);
  }

  lemma DemandAdded(flat: FlatMap, p: Page, f: nat, fl: Flags, demand: set<Page>, bg: set<nat>, s: Snapshot)
    requires DemandLeaves(flat, demand) && UserPage(p) && p in flat && flat[p] == None
    requires Balanced(s, DemandFrames(flat, demand), bg) && f !in s.used
    ensures var flat' := flat[p := Some(Leaf(Entry(f, fl), 1))];
            && DemandLeaves(flat', demand + {p})
            && DemandFrames(flat', demand + {p}) == DemandFrames(flat, demand) + {f}
  {
    var flat' := flat[p := Some(Leaf(Entry(f, fl), 1))];
    assert p !in demand;
    assert forall q <- demand :: flat'[q] == flat[q] && flat[q].value.entry.addr in DemandFrames(flat, demand);
    assert flat'[p].value.entry.addr == f;
  }

  /** Unmapping pages of the user half drops only user tables. */
  lemma DroppedTables(root: nat, s: Snapshot, s': Snapshot, freed: set<nat>, first: nat, n: nat)
    requires FramesReturned(s, s', freed) && DroppedFor(s, s', first, n) && UserRun(first, n)
    requires Shape(root, s.mem, s.tabs)
    ensures UserTableFrames(s') == UserTableFrames(s) - NewFrames(s', s)
    ensures NewFrames(s', s) <= UserTableFrames(s)
  {
    hide UserRun, OnWalk;
    forall k <- s.tabs | k !in s'.tabs
      ensures UserKey(k)
    {
      WalkIsUser(k, first, n);
    }
    forall f
      ensures f in UserTableFrames(s') <==> f in UserTableFrames(s) && f !in NewFrames(s', s)
    {
      if f in UserTableFrames(s) && f !in NewFrames(s', s) {
        var k :| k in s.tabs && UserKey(k) && s.tabs[k] == f;
        assert k in s'.tabs && s'.tabs[k] == f;
      }
      if f in UserTableFrames(s') {
        var k :| k in s'.tabs && UserKey(k) && s'.tabs[k] == f;
        assert k in s.tabs && s.tabs[k] == f;
      }
    }
  }

  lemma ReleasedBalanced(root: nat, s: Snapshot, s': Snapshot, freed: set<nat>, first: nat, n: nat, leaves: set<nat>,
                         bg: set<nat>)
    requires FramesReturned(s, s', freed) && DroppedFor(s, s', first, n) && UserRun(first, n)
    requires WellFormed(root, s'.mem, s'.tabs)
    requires Shape(root, s.mem, s.tabs) && Balanced(s, leaves, bg) && freed <= leaves
    requires s'.mem.Keys <= s'.used
    ensures Balanced(s', leaves - freed, bg)
  {
    hide UserTableFrames, UserRun, DroppedFor, Linked, Rooted;
    DroppedTables(root, s, s', freed, first, n);
  }

  /** All that is translated in the run was mapped by the fault handler. */
  ghost predicate RunOnDemand(flat: FlatMap, first: nat, n: nat, demand: set<Page>) {
    forall q <- flat :: Good(q) && InRun(q, first, n) && flat[q].Some? ==> q in demand
  }

  ghost function Outside(demand: set<Page>, first: nat, n: nat): set<Page> {
    set q | q in demand && !InRun(q, first, n)
  }

  /** A run on demand consists of 4 KB pages with frames that can be given back. */
  lemma DemandReturnable(root: nat, s: Snapshot, first: nat, n: nat, demand: set<Page>, bg: set<nat>)
    requires Conserved(root, s, demand, bg) && first + n <= PAGES
    requires RunOnDemand(Flat(root, s.mem, s.tabs), first, n, demand)
    ensures RunReturnable(s, Flat(root, s.mem, s.tabs), first, n)
    ensures AllSmall(Flat(root, s.mem, s.tabs), first, n) && NoGiant(Flat(root, s.mem, s.tabs), first, n)
  {
    hide Linked, Rooted, LeafOf, Inhabited, PageOf, Number;
    var flat := Flat(root, s.mem, s.tabs);
    forall m: nat | first <= m < first + n && flat[PageOf(m)].Some?
      ensures PageOf(m) in demand && flat[PageOf(m)].value.entry.addr in DemandFrames(flat, demand)
    {
      assert InRun(PageOf(m), first, n);
    }
  }

  lemma DemandLeafFrames(flat: FlatMap, first: nat, n: nat, demand: set<Page>)
    requires DemandLeaves(flat, demand) && first + n <= PAGES && forall q :: q in flat <==> Good(q)
    requires RunOnDemand(flat, first, n, demand)
    ensures LeafFrames(flat, first, n) <= DemandFrames(flat, demand)
    ensures DemandLeaves(flat, Outside(demand, first, n))
    ensures DemandFrames(flat, Outside(demand, first, n)) == DemandFrames(flat, demand) - LeafFrames(flat, first, n)
  {
    hide PageOf, Number;
    forall f <- LeafFrames(flat, first, n)
      ensures exists q :: q in demand && InRun(q, first, n) && flat[q].value.entry.addr == f
    {
      var m :| first <= m < first + n && IsSmall(flat[PageOf(m)]) && f == flat[PageOf(m)].value.entry.addr;
      assert PageOf(m) in demand && InRun(PageOf(m), first, n);
    }
    forall q <- demand | InRun(q, first, n)
      ensures flat[q].value.entry.addr in LeafFrames(flat, first, n)
    {
      PageOfNumber(q);
      assert IsSmall(flat[PageOf(Number(q))]);
    }
  }

  /** Over such a run, unmapping removes exactly its pages. */
  lemma DemandUnmaps(root: nat, mem: Memory, tabs: Tables, first: nat, n: nat)
    requires WellFormed(root, mem, tabs) && first + n <= PAGES && AllSmall(Flat(root, mem, tabs), first, n)
    ensures var flat := Flat(root, mem, tabs);
            UnmapRun(flat, first, n) == imap q: Page | q in flat :: if InRun(q, first, n) then None else flat[q]
  {
    hide Linked, Rooted, LeafOf, PageOf, Number, UnmapRun;
    var flat := Flat(root, mem, tabs);
    FlatLevels(root, mem, tabs);
    forall q <- flat | flat[q].Some? && flat[q].value.level != 1
      ensures !Hit(flat[q], q, first, n)
    {
      forall p | Good(p) && InRun(p, first, n)
        ensures !Served(flat[q], p, q)
      {
        PageOfNumber(p);
        assert flat[PageOf(Number(p))] == None || IsSmall(flat[PageOf(Number(p))]);
        if Served(flat[q], p, q) { LeafShared(root, mem, tabs, p, q); }
      }
    }
    UnmapRunSmall(flat, first, n);
  }

  /** Freeing a run that is all on demand keeps the account, without its pages. */
  lemma FreeConserved(root: nat, s: Snapshot, s': Snapshot, first: nat, n: nat, demand: set<Page>, bg: set<nat>)
    requires Conserved(root, s, demand, bg) && first + n <= PAGES && UserRun(first, n)
    requires RunOnDemand(Flat(root, s.mem, s.tabs), first, n, demand)
    requires Released(root, s, s', first, n, true) && s'.mem.Keys <= s'.used
    ensures Conserved(root, s', Outside(demand, first, n), bg)
  {
    hide Linked, Rooted, Widened, LeafOf, Inhabited, UserRun, Number, FramesReturned, DroppedFor, UnmapRun, Balanced,
         LeafFrames;
    var flat, flat', rest := Flat(root, s.mem, s.tabs), Flat(root, s'.mem, s'.tabs), Outside(demand, first, n);
    DemandReturnable(root, s, first, n, demand, bg);
    DemandUnmaps(root, s.mem, s.tabs, first, n);
    DemandLeafFrames(flat, first, n, demand);
    assert forall q <- rest :: flat'[q] == flat[q];
    assert DemandFrames(flat', rest) == DemandFrames(flat, rest);
    KeptTidy(s, s', LeafFrames(flat, first, n));
    ReleasedBalanced(root, s, s', LeafFrames(flat, first, n), first, n, DemandFrames(flat, demand), bg);
  }

  lemma KeptTidy(s: Snapshot, s': Snapshot, freed: set<nat>)
    requires Kept(s, s') && Tidy(s) && FramesReturned(s, s', freed)
    ensures Tidy(s')
  {
    hide Inhabited;
  }

  /** Unmapping 4 KB pages that are not on demand keeps the account. */
  lemma UnmapConserved(root: nat, s: Snapshot, s': Snapshot, first: nat, n: nat, demand: set<Page>, bg: set<nat>)
    requires Conserved(root, s, demand, bg) && first + n <= PAGES && UserRun(first, n)
    requires AllSmall(Flat(root, s.mem, s.tabs), first, n)
    requires forall q <- demand :: !InRun(q, first, n)
    requires Released(root, s, s', first, n, false) && s'.mem.Keys <= s'.used
    ensures Conserved(root, s', demand, bg)
  {
    hide Linked, Rooted, Widened, LeafOf, Inhabited, UserRun, Number, FramesReturned, DroppedFor, UnmapRun, Balanced,
         LeafFrames;
    var flat, flat' := Flat(root, s.mem, s.tabs), Flat(root, s'.mem, s'.tabs);
    DemandUnmaps(root, s.mem, s.tabs, first, n);
    assert forall q <- demand :: flat'[q] == flat[q];
    assert DemandFrames(flat', demand) == DemandFrames(flat, demand);
    KeptTidy(s, s', {});
    ReleasedBalanced(root, s, s', {}, first, n, DemandFrames(flat, demand), bg);
    assert DemandFrames(flat, demand) - {} == DemandFrames(flat, demand);
  }

  // ---------------------------------------------------------------------------
  // Mapping undone by unmapping
  // ---------------------------------------------------------------------------

  lemma MapUnmapFlat(flat: FlatMap, first: nat, n: nat, phys: nat, fl: Flags)
    requires forall q <- flat :: InRun(q, first, n) ==> flat[q] == None
    ensures var mapped := MapRun(flat, first, n, phys, fl);
            (imap q: Page | q in mapped :: if InRun(q, first, n) then None else mapped[q]) == flat
  {
    hide Number;
  }

  /** Trees that differ only in tables of a user run, both tidy and translating
      alike, have the same tables. */
  lemma SameTables(root: nat, s: Snapshot, s1: Snapshot, s2: Snapshot, first: nat, n: nat)
    requires WellFormed(root, s.mem, s.tabs) && WellFormed(root, s2.mem, s2.tabs) && Tidy(s) && Tidy(s2)
    requires Flat(root, s2.mem, s2.tabs) == Flat(root, s.mem, s.tabs)
    requires Grown(s, s1, first, n) && FramesReturned(s1, s2, {}) && DroppedFor(s1, s2, first, n) && UserRun(first, n)
    ensures s2.tabs == s.tabs
  {
    hide Linked, Rooted, LeafOf, Inhabited, UserRun, OnWalk, InhabitedKept, Needs;
    TidyTables(root, s);
    TidyTables(root, s2);
    forall k
      ensures k in s2.tabs <==> k in s.tabs
    {
      if k in s1.tabs && k !in s.tabs { WalkIsUser(k, first, n); }
      if k in s1.tabs && k !in s2.tabs { WalkIsUser(k, first, n); }
    }
  }

  /** Mapping a free run and unmapping it again puts back everything: translations,
      tables and frames. */
  lemma MapUnmapRestores(root: nat, s: Snapshot, s1: Snapshot, s2: Snapshot, first: nat, n: nat, phys: nat, fl: Flags)
    requires WellFormed(root, s.mem, s.tabs) && Tidy(s) && first + n <= PAGES && UserRun(first, n)
    requires forall q :: Good(q) && InRun(q, first, n) ==> Flat(root, s.mem, s.tabs)[q] == None
    requires Reached(root, s, s1, MapRun(Flat(root, s.mem, s.tabs), first, n, phys, fl), first, n)
    requires Released(root, s1, s2, first, n, false)
    ensures Flat(root, s2.mem, s2.tabs) == Flat(root, s.mem, s.tabs)
    ensures s2.tabs == s.tabs && s2.used == s.used
  {
    hide Linked, Rooted, Widened, LeafOf, Inhabited, UserRun, UnmapRun, Number, DroppedFor, AddedFor, InhabitedKept;
    var flat := Flat(root, s.mem, s.tabs);
    assert AllSmall(Flat(root, s1.mem, s1.tabs), first, n);
    DemandUnmaps(root, s1.mem, s1.tabs, first, n);
    MapUnmapFlat(flat, first, n, phys, fl);
    GrownTidy(s, s1, first, n);
    KeptTidy(s1, s2, {});
    SameTables(root, s, s1, s2, first, n);
    assert NewFrames(s2, s1) == NewFrames(s, s1);
  }

  // ---------------------------------------------------------------------------
  // 2 MB pages are not collected
  // ---------------------------------------------------------------------------

  /** A table that serves a translated page has an entry. */
  lemma NeededInhabited(root: nat, s: Snapshot, q: Page, k: Key)
    requires WellFormed(root, s.mem, s.tabs) && Good(q) && Needs(Flat(root, s.mem, s.tabs), q, k)
    ensures k in s.tabs && Inhabited(s.mem, s.tabs[k])
  {
    Chain(s.tabs, q);
    var l := k.Level();
    var leaf := Flat(root, s.mem, s.tabs)[q].value;
    if leaf.level < l {
      NeededIsThere(root, s, q, KeyOf(q, l - 1));
      PathAbove(root, s.mem, s.tabs, q, l - 1);
    }
    assert s.mem[s.tabs[k]][Index(q, l)].flags.present;
  }

  /** Unmapping a 2 MB page leaves no empty table behind exactly when its page
      directory serves another page; otherwise the directory stays, empty. */
  lemma LargeUnmapTidy(root: nat, s: Snapshot, s': Snapshot, p: Page)
    requires Tidy(s) && SpanCleared(root, s, s', p) && UserPage(p)
    requires var leaf := Flat(root, s.mem, s.tabs)[p]; leaf.Some? && leaf.value.level == 2
    ensures Tidy(s') <==> exists q :: Needs(Flat(root, s.mem, s.tabs), q, KeyOf(p, 2)) && !SameSpan(p, q)
  {
    hide Linked, Rooted, Widened, LeafOf, Inhabited;
    var flat, flat', pd := Flat(root, s.mem, s.tabs), Flat(root, s'.mem, s'.tabs), KeyOf(p, 2);
    NeededIsThere(root, s, p, pd);
    if Tidy(s') {
      var q := TableLeads(root, s', pd);
      assert Needs(flat, q, pd) && !SameSpan(p, q);
    }
    if other :| Needs(flat, other, pd) && !SameSpan(p, other) {
      assert Needs(flat', other, pd);
      NeededInhabited(root, s', other, pd);
      forall k <- s'.tabs | UserKey(k)
        ensures Inhabited(s'.mem, s'.tabs[k])
      {
        LargeUnmapOther(root, s, s', p, k);
      }
    }
  }

  lemma LargeUnmapOther(root: nat, s: Snapshot, s': Snapshot, p: Page, k: Key)
    requires Tidy(s) && SpanCleared(root, s, s', p) && UserPage(p) && k in s'.tabs && UserKey(k)
    requires var leaf := Flat(root, s.mem, s.tabs)[p]; leaf.Some? && leaf.value.level == 2
    requires KeyOf(p, 2) in s'.tabs && Inhabited(s'.mem, s'.tabs[KeyOf(p, 2)])
    ensures Inhabited(s'.mem, s'.tabs[k])
  {
    hide Linked, Rooted, Widened, LeafOf, Inhabited;
    var flat, flat' := Flat(root, s.mem, s.tabs), Flat(root, s'.mem, s'.tabs);
    var q := TableLeads(root, s, k);
    if SameSpan(p, q) {
      SpanShares(root, s, p, q);
      if k != KeyOf(p, 2) { ParentInhabited(root, s', p, 2); }
    } else {
      assert Needs(flat', q, k);
      NeededInhabited(root, s', q, k);
    }
  }

  lemma SpanShares(root: nat, s: Snapshot, p: Page, q: Page)
    requires WellFormed(root, s.mem, s.tabs) && Good(p) && Good(q) && SameSpan(p, q)
    requires var leaf := Flat(root, s.mem, s.tabs)[p]; leaf.Some? && leaf.value.level == 2
    ensures Flat(root, s.mem, s.tabs)[q] == Flat(root, s.mem, s.tabs)[p]
  {
    LeafShared(root, s.mem, s.tabs, q, p);
  }

  /** A block of 512 pages is in an aligned run whole or not at all. */
  lemma BlockInRun(p: Page, q: Page, first: nat, n: nat)
    requires Good(p) && Good(q) && SameSpan(p, q) && InRun(p, first, n) && first % 512 == 0 && n % 512 == 0
    ensures InRun(q, first, n)
  {
    var start := Page(p.i4, p.i3, p.i2, 0);
    LargeRegions.SpanNumbers(start, p);
    LargeRegions.SpanNumbers(start, q);
    assert Number(start) == ((p.i4 * 512 + p.i3) * 512 + p.i2) * 512;
  }

  /** In a tidy tree 2 MB pages can be mapped wherever nothing translates. */
  lemma FreshBlocks(root: nat, s: Snapshot, first: nat, n: nat)
    requires WellFormed(root, s.mem, s.tabs) && Tidy(s) && UserRun(first, n) && first % 512 == 0 && n % 512 == 0
    requires forall q :: Good(q) && InRun(q, first, n) ==> Flat(root, s.mem, s.tabs)[q] == None
    ensures LargeRegions.BlocksFree(root, s, first, n)
  {
    hide Number, Tidy, LeafOf, WellFormed;
    forall q | Good(q) && InRun(q, first, n)
      ensures KeyOf(q, 1) !in s.tabs
    {
      if KeyOf(q, 1) in s.tabs {
        NoTableInRun(root, s, first, n, q);
      }
    }
  }

  lemma NoTableInRun(root: nat, s: Snapshot, first: nat, n: nat, q: Page)
    requires WellFormed(root, s.mem, s.tabs) && Tidy(s) && UserRun(first, n) && first % 512 == 0 && n % 512 == 0
    requires forall q :: Good(q) && InRun(q, first, n) ==> Flat(root, s.mem, s.tabs)[q] == None
    requires Good(q) && InRun(q, first, n)
    ensures KeyOf(q, 1) !in s.tabs
  {
    hide Number, LeafOf, Inhabited, InRun;
    if KeyOf(q, 1) in s.tabs {
      var r := TableLeads(root, s, KeyOf(q, 1));
      BlockInRun(q, r, first, n);
    }
  }

  // ---------------------------------------------------------------------------
  // A lone 2 MB page
  // ---------------------------------------------------------------------------

  const TABLE_FLAGS := Flags(true, true, true, false, false)
  const LARGE := Entry(0x20_0000, Flags(true, true, true, true, false))

  /** A root, a table and a directory with one 2 MB page. */
  ghost function LonePage(): Snapshot {
    Snapshot(map[0x1000 := ZeroTable()[0 := Entry(0x2000, TABLE_FLAGS)][RECURSIVE_INDEX := SelfEntry(0x1000)],
                 0x2000 := ZeroTable()[0 := Entry(0x3000, TABLE_FLAGS)],
                 0x3000 := ZeroTable()[0 := LARGE]],
             map[PML4 := 0x1000, PDPT(0) := 0x2000, PD(0, 0) := 0x3000],
             {0x1000, 0x2000, 0x3000})
  }

  lemma LonePageTree()
    ensures var s := LonePage(); WellFormed(0x1000, s.mem, s.tabs) && Tidy(s)
  {
    var s := LonePage();
    LonePageShape();
    LonePageRooted();
    assert s.mem[0x1000][RECURSIVE_INDEX] == SelfEntry(0x1000);
    assert Inhabited(s.mem, 0x2000) by { assert s.mem[0x2000][0].flags.present; }
    assert Inhabited(s.mem, 0x3000) by { assert s.mem[0x3000][0].flags.present; }
    assert forall k <- s.tabs :: k == PML4 || s.tabs[k] == 0x2000 || s.tabs[k] == 0x3000;
    hide LonePage, EntryOk, Inhabited, Shape, Rooted;
    forall k, i | k in s.tabs && 0 <= i < ENTRIES && !(k.PML4? && i == RECURSIVE_INDEX)
      ensures EntryOk(s.mem[s.tabs[k]][i], k, i, s.tabs)
    {
      LonePageEntry(k, i);
    }
  }

  lemma LonePageShape()
    ensures var s := LonePage(); Shape(0x1000, s.mem, s.tabs)
  {
  }

  lemma LonePageRooted()
    ensures Rooted(LonePage().tabs)
  {
  }

  lemma LonePageEntry(k: Key, i: nat)
    requires k in LonePage().tabs && i < ENTRIES && !(k.PML4? && i == RECURSIVE_INDEX)
    requires Shape(0x1000, LonePage().mem, LonePage().tabs)
    ensures var s := LonePage(); EntryOk(s.mem[s.tabs[k]][i], k, i, s.tabs)
  {
    assert ZeroTable()[i] == UNUSED;
  }

  lemma LonePageFlat(q: Page)
    requires Good(q) && Shape(0x1000, LonePage().mem, LonePage().tabs)
    ensures var s := LonePage();
            LeafOf(0x1000, s.mem, s.tabs, q) == if SameSpan(Page(0, 0, 0, 0), q) then Some(Leaf(LARGE, 2)) else None
  {
    assert ZeroTable()[q.i2] == UNUSED && ZeroTable()[q.i3] == UNUSED;
  }

  /** Unmapping the only page of a directory leaves the directory behind, empty. */
  lemma LoneLargeExample()
    ensures var s := LonePage();
            var s' := s.(mem := Put(s.mem, 0x3000, 0, UNUSED));
            Tidy(s) && SpanCleared(0x1000, s, s', Page(0, 0, 0, 0)) && !Tidy(s')
  {
    var s, p := LonePage(), Page(0, 0, 0, 0);
    LonePageTree();
    assert KeyOf(p, 2) in s.tabs && KeyOf(p, 1) !in s.tabs && s.tabs[KeyOf(p, 2)] == 0x3000;
    forall q | Good(q)
      ensures Flat(0x1000, s.mem, s.tabs)[q] == if SameSpan(p, q) then Some(Leaf(LARGE, 2)) else None
    {
      LonePageFlat(q);
    }
    hide LonePage, WellFormed, Tidy, LeafOf, SpanCleared;
    var s' := s.(mem := Put(s.mem, 0x3000, 0, UNUSED));
    ClearSpanStep(0x1000, s, s', p);
    LargeUnmapTidy(0x1000, s, s', p);
  }
}
