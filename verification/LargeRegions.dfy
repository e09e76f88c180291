/** Regions backed by 4 KB and 2 MB frames (`allocate_and_map` in `memory/paging.rs`). */
module LargeRegions {
  import opened Common
  import opened Paging
  import opened TableTree
  import opened TableEdit
  import opened AddressSpaces
  import opened PageMapping
  import opened PageUnmapping

  // ---------------------------------------------------------------------------
  // The cached level-1 table
  // ---------------------------------------------------------------------------

  /** The 2 MB region of an address. */
  function RegionOf(v: nat): nat {
    v - v % HUGE_PAGE_SIZE
  }

  datatype Cache = Cache(table: nat, region: nat)

  /** The cached table is the level-1 table of the region, and the entries above it
      carry the flags. */
  ghost predicate CacheOk(root: nat, s: Snapshot, cache: Option<Cache>, v: nat, fl: Flags) {
    cache.Some? ==>
      && Shape(root, s.mem, s.tabs) && cache.value.region == RegionOf(v) && KeyOf(PageAt(v), 1) in s.tabs
      && cache.value.table == s.tabs[KeyOf(PageAt(v), 1)]
      && GrantsAbove(root, s, PageAt(v), 1, fl)
  }

  lemma RegionSpan(v: nat, w: nat)
    requires RegionOf(v) == RegionOf(w)
    ensures SameSpan(PageAt(v), PageAt(w))
  {
    BlockOf(v);
    BlockOf(w);
    assert v / HUGE_PAGE_SIZE == w / HUGE_PAGE_SIZE;
  }

  /** The upper three indices depend on the 2 MB block number only. */
  lemma BlockOf(v: nat)
    ensures v / PAGE_SIZE % PAGES / 512 == v / HUGE_PAGE_SIZE % 0x800_0000
  {
    var n := v / PAGE_SIZE;
    assert n / 512 == v / HUGE_PAGE_SIZE;
    BlockMod(n);
  }

  lemma BlockMod(n: nat)
    ensures n % PAGES / 512 == n / 512 % 0x800_0000
  {
    var c, d, r := n / 512 / 0x800_0000, n / 512 % 0x800_0000, n % 512;
    assert n == c * PAGES + (d * 512 + r);
    assert n % PAGES == d * 512 + r;
  }

  lemma SpanGrants(root: nat, s: Snapshot, p: Page, q: Page, fl: Flags)
    requires Shape(root, s.mem, s.tabs) && Good(p) && Good(q) && SameSpan(p, q) && GrantsAbove(root, s, p, 1, fl)
    ensures GrantsAbove(root, s, q, 1, fl)
  {
    assert Grants(root, s, p, 4, fl) && Grants(root, s, p, 3, fl) && Grants(root, s, p, 2, fl);
  }

  /** Writing a leaf does not disturb the entries above any page of its region. */
  lemma LeafStepGrants(root: nat, s: Snapshot, p: Page, e: Entry, fl: Flags)
    requires Shape(root, s.mem, s.tabs) && Good(p) && KeyOf(p, 1) in s.tabs && GrantsAbove(root, s, p, 1, fl)
    ensures var s' := LeafStep(s, p, e); Shape(root, s'.mem, s'.tabs) && GrantsAbove(root, s', p, 1, fl)
  {
    PutShape(root, s.mem, s.tabs, KeyOf(p, 1), p.i1, e);
    assert Grants(root, s, p, 4, fl) && Grants(root, s, p, 3, fl) && Grants(root, s, p, 2, fl);
    PutOther(root, s.mem, s.tabs, KeyOf(p, 1), p.i1, e, KeyOf(p, 4), p.i4);
    PutOther(root, s.mem, s.tabs, KeyOf(p, 1), p.i1, e, KeyOf(p, 3), p.i3);
    PutOther(root, s.mem, s.tabs, KeyOf(p, 1), p.i1, e, KeyOf(p, 2), p.i2);
  }

  /** One round of the head and tail loops: the same effect as a full walk. */
  method SetPageCached(a: AddressSpace, v: nat, e: Entry, cache: Option<Cache>, ghost w: nat)
    returns (cache': Option<Cache>)
    requires a.Valid() && !InWindow(PageAt(v)) && e.flags.present && !e.flags.huge
    requires Reachable(a.root, a.Now(), PageAt(v), 1) && CacheOk(a.root, a.Now(), cache, w, e.flags)
    modifies a
    ensures a.Valid() && PageSet(a.root, old(a.Now()), a.Now(), PageAt(v), e)
    ensures Grown(old(a.Now()), a.Now(), NumberAt(v), 1)
    ensures CacheOk(a.root, a.Now(), cache', v, e.flags)
  {
    hide Widened, Linked, Rooted, PageAt, Number, LeafOf, InhabitedKept, AddedOn, TablesAdded, GrantsAbove, PageSet,
         Grown;
    ghost var s, p := a.Now(), PageAt(v);
    if cache.Some? && cache.value.region == RegionOf(v) {
      RegionSpan(w, v);
      SpanGrants(a.root, s, PageAt(w), p, e.flags);
      PreparedRefl(a.root, s, p, 1);
      cache' := cache;
    } else {
      var _, _ := a.EntryFor(v, 1, e.flags);
      var t := a.TableAt(v, 1);
      cache' := Some(Cache(t, RegionOf(v)));
    }
    ghost var s1 := a.Now();
    LeafStepSet(a.root, s, s1, p, e);
    LeafStepGrown(a.root, s, s1, p, e);
    LeafStepGrants(a.root, s1, p, e, e.flags);
    a.mem := Put(a.mem, cache'.value.table, Index(PageAt(v), 1), e);
    assert a.Now() == LeafStep(s1, p, e);
  }

  // ---------------------------------------------------------------------------
  // A run of 4 KB frames
  // ---------------------------------------------------------------------------

  /** The flat map with the pages of a run sent to the given frames. */
  ghost function PlaceSmall(flat: FlatMap, first: nat, frames: seq<nat>, fl: Flags): FlatMap {
    imap q: Page | q in flat :: if InRun(q, first, |frames|)
                                then Some(Leaf(Entry(frames[Number(q) - first], fl), 1))
                                else flat[q]
  }

  lemma PlaceSmallStep(flat: FlatMap, first: nat, frames: seq<nat>, f: nat, fl: Flags)
    requires first + |frames| < PAGES && forall q :: q in flat <==> Good(q)
    ensures PlaceSmall(flat, first, frames + [f], fl) ==
            PlaceSmall(flat, first, frames, fl)[PageOf(first + |frames|) := Some(Leaf(Entry(f, fl), 1))]
  {
    hide PageOf;
    var p := PageOf(first + |frames|);
    forall q | q in flat
      ensures InRun(q, first, |frames| + 1) <==> InRun(q, first, |frames|) || q == p
    {
      if Number(q) == first + |frames| { NumberInjective(p, q); }
    }
  }

  lemma PlaceSmallRound(root: nat, s: Snapshot, s1: Snapshot, s2: Snapshot, first: nat, frames: seq<nat>, f: nat,
                        fl: Flags)
    requires WellFormed(root, s.mem, s.tabs) && first + |frames| < PAGES
    requires Reached(root, s, s1, PlaceSmall(Flat(root, s.mem, s.tabs), first, frames, fl), first, |frames|)
    requires PageSet(root, s1, s2, PageOf(first + |frames|), Entry(f, fl)) && Grown(s1, s2, first + |frames|, 1)
    ensures Reached(root, s, s2, PlaceSmall(Flat(root, s.mem, s.tabs), first, frames + [f], fl), first, |frames| + 1)
  {
    hide Grown, Widened, Linked, Rooted, PageOf, Number, LeafOf, PlaceSmall;
    var flat := Flat(root, s.mem, s.tabs);
    PlaceSmallStep(flat, first, frames, f, fl);
    ReachedTrans(root, s, s1, s2, PlaceSmall(flat, first, frames, fl), PlaceSmall(flat, first, frames + [f], fl), first,
                 |frames|, 1);
  }

  lemma StillReady(root: nat, s: Snapshot, s1: Snapshot, first: nat, n: nat, frames: seq<nat>, fl: Flags)
    requires WellFormed(root, s.mem, s.tabs) && first + n <= PAGES && |frames| < n
    requires Reached(root, s, s1, PlaceSmall(Flat(root, s.mem, s.tabs), first, frames, fl), first, |frames|)
    requires AllSmall(Flat(root, s.mem, s.tabs), first, n)
    ensures Reachable(root, s1, PageOf(first + |frames|), 1)
  {
    hide Grown, Widened, Linked, Rooted, PageOf, LeafOf;
  }

  /** The head and tail loops of `allocate_and_map`. */
  method MapSmall(a: AddressSpace, base: nat, frames: seq<nat>, fl: Flags)
    requires a.Valid() && fl.present && !fl.huge && PageRun(NumberAt(base), |frames|)
    requires AllSmall(a.Translations(), NumberAt(base), |frames|)
    modifies a
    ensures a.Valid()
    ensures Reached(a.root, old(a.Now()), a.Now(), PlaceSmall(old(a.Translations()), NumberAt(base), frames, fl),
                    NumberAt(base), |frames|)
  {
    hide Grown, Widened, Linked, Rooted, PageAt, PageOf, Number, LeafOf, CacheOk, PageSet, AllSmall;
    ghost var s, first := a.Now(), NumberAt(base);
    ghost var w: nat := 0;
    var cache := None;
    assert CacheOk(a.root, s, cache, w, fl) by { NoCache(a.root, s, w, fl); }
    assert PlaceSmall(a.Translations(), first, frames[..0], fl) == a.Translations();
    ReachedRefl(a.root, s, a.Translations(), first, 0);
    var i := 0;
    while i < |frames|
      invariant 0 <= i <= |frames| && a.Valid()
      invariant Reached(a.root, s, a.Now(), PlaceSmall(Flat(a.root, s.mem, s.tabs), first, frames[..i], fl), first, i)
      invariant CacheOk(a.root, a.Now(), cache, w, fl)
    {
      ghost var s1 := a.Now();
      StepPage(base, i);
      StepNumber(base, i);
      StillReady(a.root, s, s1, first, |frames|, frames[..i], fl);
      cache := SetPageCached(a, base + i * PAGE_SIZE, Entry(frames[i], fl), cache, w);
      w := base + i * PAGE_SIZE;
      PlaceSmallRound(a.root, s, s1, a.Now(), first, frames[..i], frames[i], fl);
      assert frames[..i] + [frames[i]] == frames[..i + 1];
      i := i + 1;
    }
    assert frames[..i] == frames;
  }

  lemma NoCache(root: nat, s: Snapshot, w: nat, fl: Flags)
    ensures CacheOk(root, s, None, w, fl)
  {
  }

  // ---------------------------------------------------------------------------
  // A run of 2 MB frames
  // ---------------------------------------------------------------------------

  /** The flat map with the 2 MB blocks of a run sent to the given frames. */
  ghost function PlaceLarge(flat: FlatMap, first: nat, frames: seq<nat>, fl: Flags): FlatMap {
    imap q: Page | q in flat :: if InRun(q, first, 512 * |frames|)
                                then Some(Leaf(Entry(frames[(Number(q) - first) / 512], fl), 2))
                                else flat[q]
  }

  lemma SpanNumbers(p: Page, q: Page)
    requires Good(p) && Good(q) && p.i1 == 0
    ensures SameSpan(p, q) <==> Number(p) <= Number(q) < Number(p) + 512
  {
    var x, y := (p.i4 * 512 + p.i3) * 512 + p.i2, (q.i4 * 512 + q.i3) * 512 + q.i2;
    assert Number(p) == x * 512 && Number(q) == y * 512 + q.i1;
    if x == y {
      Horner(p.i4 * 512 + p.i3, p.i2);
      Horner(q.i4 * 512 + q.i3, q.i2);
      Horner(p.i4, p.i3);
      Horner(q.i4, q.i3);
    }
  }

  lemma PlaceLargeStep(flat: FlatMap, first: nat, frames: seq<nat>, f: nat, fl: Flags)
    requires first % 512 == 0 && first + 512 * |frames| + 512 <= PAGES && forall q :: q in flat <==> Good(q)
    ensures PlaceLarge(flat, first, frames + [f], fl) ==
            SetSpan(PlaceLarge(flat, first, frames, fl), PageOf(first + 512 * |frames|), Some(Leaf(Entry(f, fl), 2)))
  {
    hide Number;
    var n := |frames|;
    var p := PageOf(first + 512 * n);
    assert p.i1 == 0;
    forall q | q in flat
      ensures SameSpan(p, q) <==> first + 512 * n <= Number(q) < first + 512 * n + 512
      ensures SameSpan(p, q) ==> (Number(q) - first) / 512 == n
      ensures InRun(q, first, 512 * n) ==> (Number(q) - first) / 512 < n
    {
      SpanNumbers(p, q);
    }
    assert |frames + [f]| == n + 1 && (frames + [f])[n] == f;
  }

  /** The 2 MB block at `p` is now the leaf `e`. */
  ghost predicate BlockSet(root: nat, s: Snapshot, s': Snapshot, p: Page, e: Entry) {
    && WellFormed(root, s.mem, s.tabs) && WellFormed(root, s'.mem, s'.tabs)
    && Flat(root, s'.mem, s'.tabs) == SetSpan(Flat(root, s.mem, s.tabs), p, Some(Leaf(e, 2)))
    && (Widened(root, s.mem, s.tabs) ==> Widened(root, s'.mem, s'.tabs))
  }

  ghost predicate BlockReady(root: nat, s: Snapshot, s1: Snapshot, p: Page, e: Entry, fl: Flags) {
    && Prepared(root, s, s1, p, 2) && Good(p) && KeyOf(p, 2) in s1.tabs && KeyOf(p, 1) !in s1.tabs
    && GrantsAbove(root, s1, p, 2, fl) && fl.present && !fl.huge && e.flags == fl.(huge := true)
  }

  ghost function BlockStep(s: Snapshot, p: Page, e: Entry): Snapshot
    requires Good(p) && KeyOf(p, 2) in s.tabs && s.tabs[KeyOf(p, 2)] in s.mem && |s.mem[s.tabs[KeyOf(p, 2)]]| == ENTRIES
  {
    s.(mem := Put(s.mem, s.tabs[KeyOf(p, 2)], p.i2, e))
  }

  lemma BlockStepSet(root: nat, s: Snapshot, s1: Snapshot, p: Page, e: Entry, fl: Flags)
    requires BlockReady(root, s, s1, p, e, fl)
    ensures BlockSet(root, s, BlockStep(s1, p, e), p, e)
  {
    SetHuge(root, s1.mem, s1.tabs, p, e);
    if Widened(root, s1.mem, s1.tabs) {
      assert Grants(root, s1, p, 3, fl);
      EdgeCovers(root, s1.mem, s1.tabs, p, 3);
      SetHugeWidened(root, s1.mem, s1.tabs, p, e);
    }
  }

  lemma BlockStepGrown(root: nat, s: Snapshot, s1: Snapshot, p: Page, e: Entry, fl: Flags)
    requires BlockReady(root, s, s1, p, e, fl)
    ensures Grown(s, BlockStep(s1, p, e), Number(p), 512)
  {
    hide Linked, Rooted, Widened, Flat, Number, Inhabited;
    var s2 := BlockStep(s1, p, e);
    assert NewFrames(s, s2) == NewFrames(s, s1);
    BlockStepInhabited(root, s1, p, e);
    forall k <- s2.tabs | k !in s.tabs
      ensures OnWalk(k, Number(p), 512) && Inhabited(s2.mem, s2.tabs[k])
    {
      assert k == KeyOf(p, k.Level());
      assert Good(p) && InRun(p, Number(p), 512);
      BlockPathInhabited(root, s1, p, k.Level(), e, fl);
    }
  }

  lemma BlockStepInhabited(root: nat, s: Snapshot, p: Page, e: Entry)
    requires Shape(root, s.mem, s.tabs) && Good(p) && KeyOf(p, 2) in s.tabs && e.flags.present
    ensures InhabitedKept(s, BlockStep(s, p, e))
  {
    var s' := BlockStep(s, p, e);
    forall k <- s.tabs | Inhabited(s.mem, s.tabs[k])
      ensures Inhabited(s'.mem, s.tabs[k])
    {
      var i :| 0 <= i < |s.mem[s.tabs[k]]| && s.mem[s.tabs[k]][i].flags.present;
      PutOther(root, s.mem, s.tabs, KeyOf(p, 2), p.i2, e, k, i);
      assert s'.mem[s.tabs[k]][i].flags.present;
    }
  }

  lemma BlockPathInhabited(root: nat, s1: Snapshot, p: Page, l: nat, e: Entry, fl: Flags)
    requires Shape(root, s1.mem, s1.tabs) && Good(p) && 2 <= l <= 3 && KeyOf(p, 2) in s1.tabs && KeyOf(p, l) in s1.tabs
    requires GrantsAbove(root, s1, p, 2, fl) && fl.present && e.flags.present
    ensures Inhabited(BlockStep(s1, p, e).mem, s1.tabs[KeyOf(p, l)])
  {
    PutOther(root, s1.mem, s1.tabs, KeyOf(p, 2), p.i2, e, KeyOf(p, l), Index(p, l));
    if l > 2 { assert Grants(root, s1, p, l, fl); }
    assert BlockStep(s1, p, e).mem[s1.tabs[KeyOf(p, l)]][Index(p, l)].flags.present;
  }

  /** One round of the 2 MB loop. */
  method SetBlock(a: AddressSpace, v: nat, f: nat, fl: Flags)
    requires a.Valid() && !InWindow(PageAt(v)) && fl.present && !fl.huge
    requires Reachable(a.root, a.Now(), PageAt(v), 2)
    modifies a
    ensures a.Valid() && BlockSet(a.root, old(a.Now()), a.Now(), PageAt(v), Entry(f, fl.(huge := true)))
    ensures Grown(old(a.Now()), a.Now(), NumberAt(v), 512)
  {
    hide Widened, Linked, Rooted, PageAt, Number, LeafOf, InhabitedKept, TablesAdded, GrantsAbove, BlockSet, Grown;
    ghost var s, p := a.Now(), PageAt(v);
    var e := Entry(f, fl.(huge := true));
    var t, i := a.EntryFor(v, 2, fl);
    ghost var s1 := a.Now();
    BlockStepSet(a.root, s, s1, p, e, fl);
    BlockStepGrown(a.root, s, s1, p, e, fl);
    a.mem := Put(a.mem, t, i, e);
    assert a.Now() == BlockStep(s1, p, e);
  }

  /** Blocks where 2 MB leaves can be written: nothing mapped, no 4 KB table. */
  ghost predicate BlocksFree(root: nat, s: Snapshot, first: nat, n: nat)
    requires Shape(root, s.mem, s.tabs)
  {
    forall q :: Good(q) && InRun(q, first, n) ==> Flat(root, s.mem, s.tabs)[q] == None && KeyOf(q, 1) !in s.tabs
  }

  /** Filling one run leaves the blocks of a disjoint, aligned run free. */
  lemma BlocksStillFree(root: nat, s: Snapshot, s1: Snapshot, flat: FlatMap, first: nat, n: nat, from: nat, m: nat)
    requires BlocksFreeIn(root, s, from, m) && Reached(root, s, s1, flat, first, n)
    requires first + n <= from && from % 512 == 0
    requires forall q :: Good(q) && InRun(q, from, m) ==> q in flat && flat[q] == Flat(root, s.mem, s.tabs)[q]
    ensures BlocksFreeIn(root, s1, from, m)
  {
    hide Linked, Rooted, Widened, LeafOf, Inhabited, Number;
    forall q | Good(q) && InRun(q, from, m)
      ensures KeyOf(q, 1) !in s1.tabs
    {
      forall r | Good(r) && InRun(r, first, n)
        ensures KeyOf(r, 1) != KeyOf(q, 1)
      {
        OtherBlock(r, q, from);
      }
      assert !OnWalk(KeyOf(q, 1), first, n);
    }
  }

  ghost predicate BlocksFreeIn(root: nat, s: Snapshot, first: nat, n: nat) {
    WellFormed(root, s.mem, s.tabs) && BlocksFree(root, s, first, n)
  }

  lemma OtherBlock(r: Page, q: Page, from: nat)
    requires Good(r) && Good(q) && Number(r) < from <= Number(q) && from % 512 == 0
    ensures !SameSpan(r, q)
  {
    assert Number(r) == ((r.i4 * 512 + r.i3) * 512 + r.i2) * 512 + r.i1;
    assert Number(q) == ((q.i4 * 512 + q.i3) * 512 + q.i2) * 512 + q.i1;
  }

  lemma PlaceLargeRound(root: nat, s: Snapshot, s1: Snapshot, s2: Snapshot, first: nat, frames: seq<nat>, f: nat,
                        fl: Flags)
    requires WellFormed(root, s.mem, s.tabs) && first % 512 == 0 && first + 512 * |frames| + 512 <= PAGES
    requires Reached(root, s, s1, PlaceLarge(Flat(root, s.mem, s.tabs), first, frames, fl), first, 512 * |frames|)
    requires BlockSet(root, s1, s2, PageOf(first + 512 * |frames|), Entry(f, fl))
    requires Grown(s1, s2, first + 512 * |frames|, 512)
    ensures Reached(root, s, s2, PlaceLarge(Flat(root, s.mem, s.tabs), first, frames + [f], fl), first,
                    512 * (|frames| + 1))
  {
    hide Grown, Widened, Linked, Rooted, PageOf, Number, LeafOf, PlaceLarge, SetSpan;
    var flat := Flat(root, s.mem, s.tabs);
    PlaceLargeStep(flat, first, frames, f, fl);
    ReachedTrans(root, s, s1, s2, PlaceLarge(flat, first, frames, fl), PlaceLarge(flat, first, frames + [f], fl), first,
                 512 * |frames|, 512);
  }

  /** The next block of the run can be written. */
  lemma NextBlock(root: nat, s: Snapshot, s1: Snapshot, first: nat, n: nat, frames: seq<nat>, fl: Flags)
    requires BlocksFreeIn(root, s, first, 512 * n) && first % 512 == 0 && first + 512 * n <= PAGES && |frames| < n
    requires Reached(root, s, s1, PlaceLarge(Flat(root, s.mem, s.tabs), first, frames, fl), first, 512 * |frames|)
    ensures Reachable(root, s1, PageOf(first + 512 * |frames|), 2)
  {
    hide Grown, Widened, Linked, Rooted, LeafOf, Number;
    var from := first + 512 * |frames|;
    BlocksStillFree(root, s, s1, PlaceLarge(Flat(root, s.mem, s.tabs), first, frames, fl), first, 512 * |frames|, from,
                    512);
    assert InRun(PageOf(from), from, 512);
  }

  /** The 2 MB loop of `allocate_and_map`. */
  method MapLarge(a: AddressSpace, base: nat, frames: seq<nat>, fl: Flags)
    requires a.Valid() && fl.present && !fl.huge && PageRun(NumberAt(base), 512 * |frames|)
    requires frames != [] ==> NumberAt(base) % 512 == 0
    requires BlocksFree(a.root, a.Now(), NumberAt(base), 512 * |frames|)
    modifies a
    ensures a.Valid()
    ensures Reached(a.root, old(a.Now()), a.Now(),
                    PlaceLarge(old(a.Translations()), NumberAt(base), frames, fl.(huge := true)),
                    NumberAt(base), 512 * |frames|)
  {
    hide Grown, Widened, Linked, Rooted, PageAt, PageOf, Number, LeafOf, BlockSet, BlocksFree;
    ghost var s, first, hfl := a.Now(), NumberAt(base), fl.(huge := true);
    assert PlaceLarge(a.Translations(), first, frames[..0], hfl) == a.Translations();
    ReachedRefl(a.root, s, a.Translations(), first, 0);
    var i := 0;
    while i < |frames|
      invariant 0 <= i <= |frames| && a.Valid()
      invariant Reached(a.root, s, a.Now(), PlaceLarge(Flat(a.root, s.mem, s.tabs), first, frames[..i], hfl), first,
                        512 * i)
    {
      ghost var s1 := a.Now();
      var v := base + i * HUGE_PAGE_SIZE;
      assert v == base + 512 * i * PAGE_SIZE;
      StepPage(base, 512 * i);
      StepNumber(base, 512 * i);
      NextBlock(a.root, s, s1, first, |frames|, frames[..i], hfl);
      SetBlock(a, v, frames[i], fl);
      PlaceLargeRound(a.root, s, s1, a.Now(), first, frames[..i], frames[i], hfl);
      assert frames[..i] + [frames[i]] == frames[..i + 1];
      i := i + 1;
    }
    assert frames[..i] == frames;
  }
}
