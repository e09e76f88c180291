/** Coalescing first-fit free lists, as both virtual address allocators keep them
    (`memory/mmio.rs`, `process/mod.rs`). */
module FreeLists {
  import opened Common

  /** Free addresses `[addr, addr + size)`. */
  datatype Range = Range(addr: nat, size: nat)
  {
    function End(): nat {
      addr + size
    }
  }

  /** In address order, none empty, and a gap between any two. */
  ghost predicate Sorted(rs: seq<Range>) {
    && (forall i :: 0 <= i < |rs| ==> rs[i].size > 0)
    && (forall i, j :: 0 <= i < j < |rs| ==> rs[i].End() < rs[j].addr)
  }

  predicate Holds(r: Range, x: nat) {
    r.addr <= x < r.End()
  }

  ghost predicate InFree(rs: seq<Range>, x: nat) {
    exists i :: 0 <= i < |rs| && Holds(rs[i], x)
  }

  /** Address `x` belongs to the allocation at `a`. */
  predicate InAllocation(live: map<nat, nat>, a: nat, x: nat) {
    a in live && Holds(Range(a, live[a]), x)
  }

  ghost predicate InLive(live: map<nat, nat>, x: nat) {
    exists a :: InAllocation(live, a, x)
  }

  /** Every address of `[lo, hi)` is free or in exactly one live allocation, no address
      outside is either, and free ranges are as large as they can be. */
  ghost predicate Partition(rs: seq<Range>, live: map<nat, nat>, lo: nat, hi: nat) {
    && Sorted(rs)
    && (forall a <- live :: live[a] > 0)
    && (forall x: nat :: lo <= x < hi <==> InFree(rs, x) || InLive(live, x))
    && (forall x: nat :: !(InFree(rs, x) && InLive(live, x)))
    && (forall a, b, x :: InAllocation(live, a, x) && InAllocation(live, b, x) ==> a == b)
  }

  lemma InFreeJoin(a: seq<Range>, b: seq<Range>, x: nat)
    ensures InFree(a + b, x) <==> InFree(a, x) || InFree(b, x)
  {
    if InFree(a, x) {
      var i :| 0 <= i < |a| && Holds(a[i], x);
      assert Holds((a + b)[i], x);
    }
    if InFree(b, x) {
      var i :| 0 <= i < |b| && Holds(b[i], x);
      assert Holds((a + b)[|a| + i], x);
    }
    if InFree(a + b, x) {
      var i :| 0 <= i < |a + b| && Holds((a + b)[i], x);
      assert i < |a| ==> Holds(a[i], x);
      assert i >= |a| ==> Holds(b[i - |a|], x);
    }
  }

  lemma InFreeOne(r: Range, x: nat)
    ensures InFree([r], x) <==> Holds(r, x)
  {
    assert [r][0] == r;
  }

  /** Three parts in order, with gaps between. */
  lemma SortedJoin(a: seq<Range>, r: Range, b: seq<Range>)
    requires Sorted(a) && Sorted(b) && r.size > 0
    requires (forall i :: 0 <= i < |a| ==> a[i].End() < r.addr) && (forall i :: 0 <= i < |b| ==> r.End() < b[i].addr)
    ensures Sorted(a + [r] + b)
  {
    var all := a + [r] + b;
    assert forall i :: 0 <= i < |a| ==> all[i] == a[i];
    assert all[|a|] == r;
    assert forall i :: |a| < i < |all| ==> all[i] == b[i - |a| - 1];
  }

  // ---------------------------------------------------------------------------
  // Taking from the front of a range
  // ---------------------------------------------------------------------------

  /** The list after `size` addresses are taken from the front of range `i`. */
  function TakeFrom(rs: seq<Range>, i: nat, size: nat): seq<Range>
    requires i < |rs| && size <= rs[i].size
  {
    if rs[i].size > size then rs[i := Range(rs[i].addr + size, rs[i].size - size)] else rs[..i] + rs[i + 1..]
  }

  lemma TakeSorted(rs: seq<Range>, i: nat, size: nat)
    requires Sorted(rs) && i < |rs| && 0 < size <= rs[i].size
    ensures Sorted(TakeFrom(rs, i, size))
  {
  }

  lemma TakeFree(rs: seq<Range>, i: nat, size: nat, x: nat)
    requires Sorted(rs) && i < |rs| && 0 < size <= rs[i].size
    ensures InFree(TakeFrom(rs, i, size), x) <==> InFree(rs, x) && !Holds(Range(rs[i].addr, size), x)
  {
    hide InFree;
    var front, back := rs[..i], rs[i + 1..];
    assert rs == front + ([rs[i]] + back);
    InFreeJoin(front, [rs[i]] + back, x);
    InFreeJoin([rs[i]], back, x);
    InFreeOne(rs[i], x);
    NotOutside(rs, i, x);
    if rs[i].size > size {
      var left := Range(rs[i].addr + size, rs[i].size - size);
      assert TakeFrom(rs, i, size) == front + ([left] + back);
      InFreeJoin(front, [left] + back, x);
      InFreeJoin([left], back, x);
      InFreeOne(left, x);
    } else {
      InFreeJoin(front, back, x);
    }
  }

  /** An address of one range is in no other. */
  lemma NotOutside(rs: seq<Range>, i: nat, x: nat)
    requires Sorted(rs) && i < |rs|
    ensures Holds(rs[i], x) ==> !InFree(rs[..i], x) && !InFree(rs[i + 1..], x)
  {
  }

  lemma TakePartition(rs: seq<Range>, live: map<nat, nat>, lo: nat, hi: nat, i: nat, size: nat)
    requires Partition(rs, live, lo, hi) && i < |rs| && 0 < size <= rs[i].size
    ensures rs[i].addr !in live && lo <= rs[i].addr && rs[i].addr + size <= hi
    ensures Partition(TakeFrom(rs, i, size), live[rs[i].addr := size], lo, hi)
  {
    var a := rs[i].addr;
    assert Holds(rs[i], a) && InFree(rs, a);
    assert Holds(rs[i], a + size - 1) && InFree(rs, a + size - 1);
    assert a in live ==> InAllocation(live, a, a);
    TakeSorted(rs, i, size);
    forall x: nat
      ensures InFree(TakeFrom(rs, i, size), x) <==> InFree(rs, x) && !Holds(Range(a, size), x)
      ensures Holds(Range(a, size), x) ==> InFree(rs, x)
      ensures InLive(live[a := size], x) <==> InLive(live, x) || Holds(Range(a, size), x)
    {
      TakeFree(rs, i, size, x);
      assert Holds(Range(a, size), x) ==> Holds(rs[i], x);
      PutLive(live, a, size, x);
    }
    var live' := live[a := size];
    forall b: nat, c: nat, x: nat | InAllocation(live', b, x) && InAllocation(live', c, x)
      ensures b == c
    {
      assert b != a ==> InAllocation(live, b, x);
      assert c != a ==> InAllocation(live, c, x);
    }
  }

  lemma PutLive(live: map<nat, nat>, a: nat, size: nat, x: nat)
    requires a !in live
    ensures InLive(live[a := size], x) <==> InLive(live, x) || Holds(Range(a, size), x)
  {
    if InLive(live, x) {
      var b :| InAllocation(live, b, x);
      assert InAllocation(live[a := size], b, x);
    }
    if Holds(Range(a, size), x) { assert InAllocation(live[a := size], a, x); }
    if InLive(live[a := size], x) {
      var b :| InAllocation(live[a := size], b, x);
      assert b != a ==> InAllocation(live, b, x);
    }
  }

  // ---------------------------------------------------------------------------
  // Giving back with coalescing
  // ---------------------------------------------------------------------------

  /** Where a range at `addr` belongs: the number of ranges below it. */
  ghost predicate IsSlot(rs: seq<Range>, addr: nat, k: nat) {
    k <= |rs| && (forall i :: 0 <= i < k ==> rs[i].addr < addr) && (forall i :: k <= i < |rs| ==> rs[i].addr >= addr)
  }

  predicate MergesBelow(rs: seq<Range>, k: nat, addr: nat)
    requires k <= |rs|
  {
    k > 0 && rs[k - 1].End() == addr
  }

  predicate MergesAbove(rs: seq<Range>, k: nat, end: nat)
    requires k <= |rs|
  {
    k < |rs| && rs[k].addr == end
  }

  /** The list with `[addr, addr + size)` put back at slot `k`, merged with its neighbours. */
  function GiveBack(rs: seq<Range>, k: nat, addr: nat, size: nat): seq<Range>
    requires k <= |rs|
  {
    rs[..if MergesBelow(rs, k, addr) then k - 1 else k] + [Merged(rs, k, addr, size)] +
    rs[if MergesAbove(rs, k, addr + size) then k + 1 else k..]
  }

  /** No address of the range is free. */
  ghost predicate Clear(rs: seq<Range>, addr: nat, size: nat) {
    forall x: nat :: Holds(Range(addr, size), x) ==> !InFree(rs, x)
  }

  /** What lies below and above the slot. */
  lemma Neighbours(rs: seq<Range>, k: nat, addr: nat, size: nat)
    requires Sorted(rs) && IsSlot(rs, addr, k) && size > 0 && Clear(rs, addr, size)
    ensures forall i :: 0 <= i < k ==> rs[i].End() <= addr
    ensures forall i :: k <= i < |rs| ==> addr + size <= rs[i].addr
  {
    forall i | 0 <= i < k
      ensures rs[i].End() <= addr
    {
      assert Holds(Range(addr, size), addr);
      assert Holds(rs[i], addr) ==> InFree(rs, addr);
    }
    forall i | k <= i < |rs|
      ensures addr + size <= rs[i].addr
    {
      var y := rs[i].addr;
      assert Holds(rs[i], y);
      assert InFree(rs, y);
      assert !Holds(Range(addr, size), y);
    }
  }

  /** The merged range that replaces those next to `[addr, addr + size)`. */
  function Merged(rs: seq<Range>, k: nat, addr: nat, size: nat): Range
    requires k <= |rs|
  {
    var below, above := MergesBelow(rs, k, addr), MergesAbove(rs, k, addr + size);
    Range(if below then rs[k - 1].addr else addr,
          size + (if below then rs[k - 1].size else 0) + (if above then rs[k].size else 0))
  }

  lemma GapBelow(rs: seq<Range>, k: nat, addr: nat, size: nat, i: nat)
    requires Sorted(rs) && k <= |rs| && (forall i :: 0 <= i < k ==> rs[i].End() <= addr)
    requires i < if MergesBelow(rs, k, addr) then k - 1 else k
    ensures rs[i].End() < Merged(rs, k, addr, size).addr
  {
    assert i < k - 1 ==> rs[i].End() < rs[k - 1].addr;
    assert rs[k - 1].End() <= addr;
  }

  lemma GapAbove(rs: seq<Range>, k: nat, addr: nat, size: nat, i: nat)
    requires Sorted(rs) && k <= |rs| && (forall i :: k <= i < |rs| ==> addr + size <= rs[i].addr)
    requires (if MergesAbove(rs, k, addr + size) then k + 1 else k) <= i < |rs|
    ensures Merged(rs, k, addr, size).End() < rs[i].addr
  {
    assert k < i ==> rs[k].End() < rs[i].addr;
    assert addr + size <= rs[k].addr;
  }

  lemma GiveSorted(rs: seq<Range>, k: nat, addr: nat, size: nat)
    requires Sorted(rs) && IsSlot(rs, addr, k) && size > 0 && Clear(rs, addr, size)
    ensures Sorted(GiveBack(rs, k, addr, size))
  {
    Neighbours(rs, k, addr, size);
    hide Clear, InFree, Sorted;
    var m := if MergesBelow(rs, k, addr) then k - 1 else k;
    var n := if MergesAbove(rs, k, addr + size) then k + 1 else k;
    var front, mid, back := rs[..m], Merged(rs, k, addr, size), rs[n..];
    PartsSorted(rs, m, n);
    forall i | 0 <= i < |front|
      ensures front[i].End() < mid.addr
    {
      GapBelow(rs, k, addr, size, i);
    }
    forall i | 0 <= i < |back|
      ensures mid.End() < back[i].addr
    {
      GapAbove(rs, k, addr, size, n + i);
    }
    SortedJoin(front, mid, back);
  }

  lemma PartsSorted(rs: seq<Range>, m: nat, n: nat)
    requires Sorted(rs) && m <= |rs| && n <= |rs|
    ensures Sorted(rs[..m]) && Sorted(rs[n..])
  {
  }

  lemma GiveFree(rs: seq<Range>, k: nat, addr: nat, size: nat, x: nat)
    requires k <= |rs| && size > 0
    ensures InFree(GiveBack(rs, k, addr, size), x) <==> InFree(rs, x) || Holds(Range(addr, size), x)
  {
    hide InFree;
    var below, above := MergesBelow(rs, k, addr), MergesAbove(rs, k, addr + size);
    var front, back := rs[..if below then k - 1 else k], rs[if above then k + 1 else k..];
    var start := if below then rs[k - 1].addr else addr;
    var total := size + (if below then rs[k - 1].size else 0) + (if above then rs[k].size else 0);
    var mid := Range(start, total);
    InFreeJoin(front + [mid], back, x);
    InFreeJoin(front, [mid], x);
    InFreeOne(mid, x);
    assert rs == rs[..k] + rs[k..];
    InFreeJoin(rs[..k], rs[k..], x);
    if below {
      assert rs[..k] == front + [rs[k - 1]];
      InFreeJoin(front, [rs[k - 1]], x);
      InFreeOne(rs[k - 1], x);
    }
    if above {
      assert rs[k..] == [rs[k]] + back;
      InFreeJoin([rs[k]], back, x);
      InFreeOne(rs[k], x);
    }
  }

  lemma GivePartition(rs: seq<Range>, live: map<nat, nat>, lo: nat, hi: nat, k: nat, a: nat)
    requires Partition(rs, live, lo, hi) && a in live && IsSlot(rs, a, k)
    ensures Partition(GiveBack(rs, k, a, live[a]), live - {a}, lo, hi)
  {
    var size := live[a];
    forall x: nat | Holds(Range(a, size), x)
      ensures !InFree(rs, x)
    {
      assert InAllocation(live, a, x);
    }
    GiveSorted(rs, k, a, size);
    forall x: nat
      ensures InFree(GiveBack(rs, k, a, size), x) <==> InFree(rs, x) || Holds(Range(a, size), x)
      ensures InLive(live - {a}, x) <==> InLive(live, x) && !Holds(Range(a, size), x)
      ensures Holds(Range(a, size), x) ==> InLive(live, x)
    {
      assert Holds(Range(a, size), x) ==> InAllocation(live, a, x);
      GiveFree(rs, k, a, size, x);
      DropLive(rs, live, lo, hi, a, x);
    }
    var live' := live - {a};
    forall b: nat, c: nat, x: nat | InAllocation(live', b, x) && InAllocation(live', c, x)
      ensures b == c
    {
      assert InAllocation(live, b, x) && InAllocation(live, c, x);
    }
  }

  lemma DropLive(rs: seq<Range>, live: map<nat, nat>, lo: nat, hi: nat, a: nat, x: nat)
    requires Partition(rs, live, lo, hi) && a in live
    ensures InLive(live - {a}, x) <==> InLive(live, x) && !Holds(Range(a, live[a]), x)
  {
    if InLive(live - {a}, x) {
      var b :| InAllocation(live - {a}, b, x);
      assert InAllocation(live, b, x);
      assert Holds(Range(a, live[a]), x) ==> InAllocation(live, a, x);
    }
    if InLive(live, x) && !Holds(Range(a, live[a]), x) {
      var b :| InAllocation(live, b, x);
      assert InAllocation(live - {a}, b, x);
    }
  }

  /** With nothing allocated the list is the whole range, in one piece. */
  lemma Collapsed(rs: seq<Range>, lo: nat, hi: nat)
    requires Partition(rs, map[], lo, hi) && lo < hi
    ensures rs == [Range(lo, hi - lo)]
  {
    var none: map<nat, nat> := map[];
    assert forall x: nat :: !InLive(none, x);
    forall j | 0 <= j < |rs|
      ensures lo <= rs[j].addr && rs[j].End() <= hi
    {
      assert Holds(rs[j], rs[j].addr) && Holds(rs[j], rs[j].End() - 1);
      assert InFree(rs, rs[j].addr) && InFree(rs, rs[j].End() - 1);
    }
    assert InFree(rs, lo) && InFree(rs, hi - 1);
    if |rs| >= 2 {
      assert rs[0].End() < rs[1].addr && rs[1].End() <= hi && !InLive(none, rs[0].End());
      GapNotFree(rs);
    }
    assert rs == [rs[0]];
    InFreeOne(rs[0], lo);
    InFreeOne(rs[0], hi - 1);
  }

  /** The address just after the first range is not free. */
  lemma GapNotFree(rs: seq<Range>)
    requires Sorted(rs) && rs != []
    ensures !InFree(rs, rs[0].End())
  {
    forall j | 0 <= j < |rs|
      ensures !Holds(rs[j], rs[0].End())
    {
      assert j > 0 ==> rs[0].End() < rs[j].addr;
    }
  }

  // ---------------------------------------------------------------------------
  // Searching
  // ---------------------------------------------------------------------------

  /** Where the lowest address of a list is, and where its first range ends. */
  lemma FirstRange(rs: seq<Range>, x: nat)
    requires Sorted(rs) && rs != []
    ensures InFree(rs, rs[0].addr) && (InFree(rs, x) ==> rs[0].addr <= x) && !InFree(rs, rs[0].End())
    ensures Sorted(rs[1..]) && (InFree(rs[1..], x) <==> InFree(rs, x) && !Holds(rs[0], x))
  {
    assert Holds(rs[0], rs[0].addr);
    GapNotFree(rs);
    assert rs == [rs[0]] + rs[1..];
    InFreeJoin([rs[0]], rs[1..], x);
    InFreeOne(rs[0], x);
  }

  lemma {:induction false} SameCover(rs: seq<Range>, rs': seq<Range>)
    requires Sorted(rs) && Sorted(rs') && forall x: nat :: InFree(rs, x) <==> InFree(rs', x)
    ensures rs == rs'
  {
    if rs != [] { FirstRange(rs, 0); }
    if rs' != [] { FirstRange(rs', 0); }
    if rs != [] && rs' != [] {
      SameFirst(rs, rs');
      forall x: nat
        ensures InFree(rs[1..], x) <==> InFree(rs'[1..], x)
      {
        FirstRange(rs, x);
        FirstRange(rs', x);
      }
      SameCover(rs[1..], rs'[1..]);
      assert rs == [rs[0]] + rs[1..] && rs' == [rs'[0]] + rs'[1..];
    }
  }

  lemma SameFirst(rs: seq<Range>, rs': seq<Range>)
    requires Sorted(rs) && Sorted(rs') && rs != [] && rs' != [] && forall x: nat :: InFree(rs, x) <==> InFree(rs', x)
    ensures rs[0] == rs'[0]
  {
    FirstRange(rs, rs'[0].addr);
    FirstRange(rs', rs[0].addr);
    var r, r' := rs[0], rs'[0];
    assert Holds(r', r.End()) ==> InFree(rs', r.End());
    assert Holds(r, r'.End()) ==> InFree(rs, r'.End());
  }

  /** The free list depends on the live allocations alone, not on the order of the calls
      that led to them. */
  lemma FreeListUnique(rs: seq<Range>, rs': seq<Range>, live: map<nat, nat>, lo: nat, hi: nat)
    requires Partition(rs, live, lo, hi) && Partition(rs', live, lo, hi)
    ensures rs == rs'
  {
    forall x: nat
      ensures InFree(rs, x) <==> InFree(rs', x)
    {
      assert lo <= x < hi <==> InFree(rs, x) || InLive(live, x);
      assert lo <= x < hi <==> InFree(rs', x) || InLive(live, x);
    }
    SameCover(rs, rs');
  }

  /** The first range large enough. */
  ghost predicate IsFit(rs: seq<Range>, size: nat, i: nat) {
    i < |rs| && rs[i].size >= size && forall j :: 0 <= j < i ==> rs[j].size < size
  }

  /** An address is that of the first range large enough. */
  ghost predicate FirstFit(rs: seq<Range>, size: nat, addr: nat) {
    exists i: nat :: IsFit(rs, size, i) && rs[i].addr == addr
  }

  /** The list after a first-fit allocation. */
  ghost function Allocated(rs: seq<Range>, size: nat): seq<Range> {
    if exists i: nat :: IsFit(rs, size, i) then
      var i: nat :| IsFit(rs, size, i);
      TakeFrom(rs, i, size)
    else rs
  }

  lemma AllocatedAt(rs: seq<Range>, size: nat, i: nat)
    requires IsFit(rs, size, i)
    ensures Allocated(rs, size) == TakeFrom(rs, i, size) && FirstFit(rs, size, rs[i].addr)
  {
    var j: nat :| IsFit(rs, size, j) && Allocated(rs, size) == TakeFrom(rs, j, size);
    FitUnique(rs, size, i, j);
  }

  lemma FitUnique(rs: seq<Range>, size: nat, i: nat, j: nat)
    requires IsFit(rs, size, i) && IsFit(rs, size, j)
    ensures i == j
  {
  }

  /** First fit, in address order. */
  method FindFit(rs: seq<Range>, size: nat) returns (i: Option<nat>)
    ensures i == None <==> forall r <- rs :: r.size < size
    ensures i.Some? ==> i.value < |rs| && rs[i.value].size >= size && forall j :: 0 <= j < i.value ==> rs[j].size < size
  {
    var j := 0;
    while j < |rs|
      invariant 0 <= j <= |rs| && forall k :: 0 <= k < j ==> rs[k].size < size
    {
      if rs[j].size >= size {
        return Some(j);
      }
      j := j + 1;
    }
    return None;
  }

  /** The slot of an address. */
  method FindSlot(rs: seq<Range>, addr: nat) returns (k: nat)
    requires Sorted(rs)
    ensures IsSlot(rs, addr, k)
  {
    k := 0;
    while k < |rs| && rs[k].addr < addr
      invariant 0 <= k <= |rs| && forall i :: 0 <= i < k ==> rs[i].addr < addr
    {
      k := k + 1;
    }
  }

  // ---------------------------------------------------------------------------
  // The allocator of physical-mapping addresses
  // ---------------------------------------------------------------------------

  const MMIO_BASE: nat := 0xFFFF_9000_0000_0000
  const MMIO_SIZE: nat := 0x1000_0000_0000

  class MmioVaddrAllocator {
    var free: seq<Range>
    var bumpNext: nat
    ghost var live: map<nat, nat>

    /** Addresses handed out so far are free again or live. */
    ghost predicate Valid()
      reads this
    {
      MMIO_BASE <= bumpNext <= MMIO_BASE + MMIO_SIZE && Partition(free, live, MMIO_BASE, bumpNext)
    }

    constructor ()
      ensures Valid() && free == [] && live == map[] && bumpNext == MMIO_BASE
    {
      free, bumpNext := [], MMIO_BASE;
      live := map[];
    }

    /** `allocate`: first fit, otherwise from the unused end; `None` is the panic on exhaustion. */
    method Allocate(size: nat) returns (r: Option<nat>)
      requires Valid() && size > 0
      modifies this
      ensures Valid()
      ensures r == None <==> (forall f <- old(free) :: f.size < size) && old(bumpNext) + size > MMIO_BASE + MMIO_SIZE
      ensures r == None ==> free == old(free) && live == old(live) && bumpNext == old(bumpNext)
      ensures r.Some? ==> r.value !in old(live) && live == old(live)[r.value := size]
      ensures r.Some? ==>
                if exists f <- old(free) :: f.size >= size
                then FirstFit(old(free), size, r.value) && bumpNext == old(bumpNext)
                else r.value == old(bumpNext) && bumpNext == old(bumpNext) + size
    {
      hide Partition;
      var i := FindFit(free, size);
      if i.Some? {
        var addr := free[i.value].addr;
        assert free[i.value] in free;
        TakePartition(free, live, MMIO_BASE, bumpNext, i.value, size);
        free := TakeFrom(free, i.value, size);
        live := live[addr := size];
        return Some(addr);
      }
      var addr := bumpNext;
      if addr + size > MMIO_BASE + MMIO_SIZE {
        return None;
      }
      BumpPartition(free, live, MMIO_BASE, bumpNext, size);
      bumpNext := addr + size;
      live := live[addr := size];
      return Some(addr);
    }

    /** `deallocate` of a live allocation: merge with the ranges on both sides. */
    method Deallocate(addr: nat, size: nat)
      requires Valid() && addr in live && live[addr] == size
      modifies this
      ensures Valid() && live == old(live) - {addr} && bumpNext == old(bumpNext)
      ensures live == map[] ==> free == [Range(MMIO_BASE, bumpNext - MMIO_BASE)]
    {
      hide Partition, GiveBack;
      assert Sorted(free) by { PartitionSorted(free, live, MMIO_BASE, bumpNext); }
      var k := FindSlot(free, addr);
      GivePartition(free, live, MMIO_BASE, bumpNext, k, addr);
      LiveInside(free, live, MMIO_BASE, bumpNext, addr);
      var newAddr, newSize, lower, upper := addr, size, k, k;
      if k > 0 && free[k - 1].End() == addr {
        newAddr := free[k - 1].addr;
        newSize := newSize + free[k - 1].size;
        lower := k - 1;
      }
      if k < |free| && free[k].addr == newAddr + newSize {
        newSize := newSize + free[k].size;
        upper := k + 1;
      }
      GiveBackIs(free, k, addr, size);
      free := free[..lower] + [Range(newAddr, newSize)] + free[upper..];
      live := live - {addr};
      if live == map[] { Collapsed(free, MMIO_BASE, bumpNext); }
    }
  }

  lemma PartitionSorted(rs: seq<Range>, live: map<nat, nat>, lo: nat, hi: nat)
    requires Partition(rs, live, lo, hi)
    ensures Sorted(rs)
  {
  }

  lemma LiveInside(rs: seq<Range>, live: map<nat, nat>, lo: nat, hi: nat, a: nat)
    requires Partition(rs, live, lo, hi) && a in live
    ensures live[a] > 0 && lo <= a < hi && a + live[a] <= hi
  {
    assert InAllocation(live, a, a) && InAllocation(live, a, a + live[a] - 1);
    assert InLive(live, a) && InLive(live, a + live[a] - 1);
  }

  lemma GiveBackIs(rs: seq<Range>, k: nat, addr: nat, size: nat)
    requires k <= |rs|
    ensures GiveBack(rs, k, addr, size) ==
            rs[..if k > 0 && rs[k - 1].End() == addr then k - 1 else k] + [Merged(rs, k, addr, size)] +
            rs[if k < |rs| && rs[k].addr == addr + size then k + 1 else k..]
  {
  }

  /** `free_buffer_vaddr` on any list: merge with the range that ends at `addr` and the one
      that starts at its end; without either, the entry at `addr` is written over. */
  function Inserted(rs: seq<Range>, k: nat, addr: nat, size: nat): seq<Range>
    requires k <= |rs|
  {
    var prev, next := k > 0 && rs[k - 1].End() == addr, k < |rs| && rs[k].addr == addr + size;
    if prev && next then rs[..k - 1] + [Range(rs[k - 1].addr, rs[k - 1].size + size + rs[k].size)] + rs[k + 1..]
    else if prev then rs[..k - 1] + [Range(rs[k - 1].addr, rs[k - 1].size + size)] + rs[k..]
    else if next then rs[..k] + [Range(addr, size + rs[k].size)] + rs[k + 1..]
    else if k < |rs| && rs[k].addr == addr then rs[..k] + [Range(addr, size)] + rs[k + 1..]
    else rs[..k] + [Range(addr, size)] + rs[k..]
  }

  lemma InsertedIsGiven(rs: seq<Range>, k: nat, addr: nat, size: nat)
    requires k <= |rs| && !(k < |rs| && rs[k].addr == addr)
    ensures Inserted(rs, k, addr, size) == GiveBack(rs, k, addr, size)
  {
  }

  /** No free range starts where a live one does. */
  lemma LiveNotFree(rs: seq<Range>, live: map<nat, nat>, lo: nat, hi: nat, a: nat, i: nat)
    requires Partition(rs, live, lo, hi) && a in live && i < |rs|
    ensures rs[i].addr != a
  {
    assert InAllocation(live, a, a);
    assert Holds(rs[i], rs[i].addr);
    assert InFree(rs, rs[i].addr);
  }

  /** Putting back a live range keeps the partition, without that range. */
  lemma InsertedLive(rs: seq<Range>, live: map<nat, nat>, lo: nat, hi: nat, k: nat, a: nat)
    requires Partition(rs, live, lo, hi) && a in live && IsSlot(rs, a, k)
    ensures Partition(Inserted(rs, k, a, live[a]), live - {a}, lo, hi)
  {
    hide Partition, Inserted, GiveBack;
    GivePartition(rs, live, lo, hi, k, a);
    if k < |rs| { LiveNotFree(rs, live, lo, hi, a, k); }
    InsertedIsGiven(rs, k, a, live[a]);
  }

  /** Putting back a range that is not live: free and live ranges are a partition
      afterwards exactly when the range already was one of the free ranges; then the list
      stays as it is. */
  lemma InsertedAgain(rs: seq<Range>, live: map<nat, nat>, lo: nat, hi: nat, k: nat, addr: nat, size: nat)
    requires Partition(rs, live, lo, hi) && IsSlot(rs, addr, k) && size > 0
    ensures Partition(Inserted(rs, k, addr, size), live, lo, hi) <==> Range(addr, size) in rs
    ensures Range(addr, size) in rs ==> Inserted(rs, k, addr, size) == rs
  {
    var rs' := Inserted(rs, k, addr, size);
    if Range(addr, size) in rs {
      SlotOfRange(rs, k, addr, size);
    }
    if Partition(rs', live, lo, hi) {
      FreeListUnique(rs, rs', live, lo, hi);
      hide Partition;
      InsertedChanges(rs, k, addr, size);
    }
  }

  lemma SlotUnique(rs: seq<Range>, k: nat, j: nat)
    requires Sorted(rs) && j < |rs| && IsSlot(rs, rs[j].addr, k)
    ensures j == k
  {
    assert k < |rs| ==> rs[k].addr >= rs[j].addr;
  }

  lemma SlotOfRange(rs: seq<Range>, k: nat, addr: nat, size: nat)
    requires Sorted(rs) && IsSlot(rs, addr, k) && size > 0 && Range(addr, size) in rs
    ensures Inserted(rs, k, addr, size) == rs
  {
    var j :| 0 <= j < |rs| && rs[j] == Range(addr, size);
    SlotUnique(rs, k, j);
    assert k > 0 ==> rs[k - 1].End() < rs[k].addr;
    assert rs == rs[..k] + [rs[k]] + rs[k + 1..];
  }

  lemma InsertedChanges(rs: seq<Range>, k: nat, addr: nat, size: nat)
    requires k <= |rs| && size > 0
    ensures Inserted(rs, k, addr, size) == rs ==> Range(addr, size) in rs
  {
    var prev, next := k > 0 && rs[k - 1].End() == addr, k < |rs| && rs[k].addr == addr + size;
    var rs' := Inserted(rs, k, addr, size);
    assert prev ==> rs'[k - 1].size > rs[k - 1].size;
    assert !prev && next ==> rs'[k].addr < rs[k].addr;
    assert !prev && !next ==> rs'[k] == Range(addr, size);
  }

  /** Extending the managed range by a new allocation at its end. */
  lemma BumpPartition(rs: seq<Range>, live: map<nat, nat>, lo: nat, hi: nat, size: nat)
    requires Partition(rs, live, lo, hi) && size > 0 && lo <= hi
    ensures hi !in live && Partition(rs, live[hi := size], lo, hi + size)
  {
    assert hi in live ==> InAllocation(live, hi, hi) && InLive(live, hi);
    var live' := live[hi := size];
    forall x: nat
      ensures InLive(live', x) <==> InLive(live, x) || Holds(Range(hi, size), x)
    {
      PutLive(live, hi, size, x);
    }
    forall b: nat, c: nat, x: nat | InAllocation(live', b, x) && InAllocation(live', c, x)
      ensures b == c
    {
      assert b != hi ==> InAllocation(live, b, x) && InLive(live, x);
      assert c != hi ==> InAllocation(live, c, x) && InLive(live, x);
    }
  }
}
