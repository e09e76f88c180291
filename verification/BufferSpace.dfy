/** Buffers of a process: their address ranges, their pages and their resizing
    (`process/mod.rs`, `resource/buffer.rs`, `syscall/buffer.rs`). */
module BufferSpaces {
  import opened Common
  import opened FreeLists

  const PAGE: nat := 4096
  /** The buffer region, in pages. */
  const BUFFER_FIRST: nat := 0x1000_0000
  const BUFFER_PAGES: nat := 0x10_0000
  const MAX_BUFFER_SIZE: nat := 0x100_0000

  function PagesFor(size: nat): nat {
    (size + PAGE - 1) / PAGE
  }

  /** Enough pages, and no page more. */
  lemma PagesForLeast(size: nat)
    ensures size <= PagesFor(size) * 4096 < size + 4096
  {
  }

  /** A buffer: first page of its range, the bytes of its frames, its logical size. */
  datatype Buffer = Buffer(page: nat, bytes: seq<nat>, size: nat)
  {
    function Frames(): nat {
      |bytes| / PAGE
    }
  }

  /** The logical size uses exactly the frames the buffer has. */
  predicate Consistent(b: Buffer) {
    && 0 < b.size <= MAX_BUFFER_SIZE && |b.bytes| == b.Frames() * PAGE && b.Frames() == PagesFor(b.size)
  }

  function Zeros(n: nat): (z: seq<nat>)
    ensures |z| == n && forall i :: 0 <= i < n ==> z[i] == 0
  {
    seq(n, _ => 0)
  }

  /** Live ranges of a set of buffers. */
  ghost predicate RangesOf(buffers: map<nat, Buffer>, live: map<nat, nat>) {
    && (forall h <- buffers :: buffers[h].page in live && live[buffers[h].page] == buffers[h].Frames())
    && (forall g <- buffers, h <- buffers :: buffers[g].page == buffers[h].page ==> g == h)
    && (forall a <- live :: exists h :: h in buffers && buffers[h].page == a)
  }

  lemma AddRange(buffers: map<nat, Buffer>, live: map<nat, nat>, h: nat, b: Buffer)
    requires RangesOf(buffers, live) && h !in buffers && b.page !in live
    ensures RangesOf(buffers[h := b], live[b.page := b.Frames()])
  {
    var buffers', live' := buffers[h := b], live[b.page := b.Frames()];
    forall a <- live'
      ensures exists g :: g in buffers' && buffers'[g].page == a
    {
      if a == b.page {
        assert buffers'[h].page == a;
      } else {
        var g :| g in buffers && buffers[g].page == a;
        assert buffers'[g].page == a;
      }
    }
  }

  lemma DropRange(buffers: map<nat, Buffer>, live: map<nat, nat>, h: nat)
    requires RangesOf(buffers, live) && h in buffers
    ensures RangesOf(buffers - {h}, live - {buffers[h].page})
  {
    var buffers', live' := buffers - {h}, live - {buffers[h].page};
    forall a <- live'
      ensures exists g :: g in buffers' && buffers'[g].page == a
    {
      var g :| g in buffers && buffers[g].page == a;
      assert g in buffers';
    }
  }

  lemma PagesBounds(size: nat)
    requires 0 < size <= MAX_BUFFER_SIZE
    ensures 0 < PagesFor(size) <= 4096 && size <= PagesFor(size) * PAGE
    ensures PagesFor(size) * PAGE / PAGE == PagesFor(size)
  {
  }

  // ---------------------------------------------------------------------------
  // Buffers that were given back and are still held
  // ---------------------------------------------------------------------------

  /** Dropping a buffer, or marking it as given back, takes it out of the current ones. */
  lemma CurrentWithout(store: map<nat, Buffer>, returned: set<nat>, id: nat)
    ensures store - (returned + {id}) == (store - returned) - {id}
    ensures (store - {id}) - (returned - {id}) == (store - returned) - {id}
  {
    assert ((store - {id}) - (returned - {id})).Keys == ((store - returned) - {id}).Keys;
  }

  lemma CurrentWith(store: map<nat, Buffer>, returned: set<nat>, id: nat, b: Buffer)
    requires id !in returned
    ensures store[id := b] - returned == (store - returned)[id := b]
  {
  }

  /** A change of a buffer that stays in its range. */
  lemma CurrentResized(store: map<nat, Buffer>, returned: set<nat>, live: map<nat, nat>, id: nat, size: nat)
    requires RangesOf(store - returned, live) && id in store
    ensures RangesOf(store[id := store[id].(size := size)] - returned, live)
  {
    var now, then' := store - returned, store[id := store[id].(size := size)] - returned;
    assert then'.Keys == now.Keys && forall g <- now :: then'[g].page == now[g].page && then'[g].bytes == now[g].bytes;
    forall a <- live
      ensures exists g :: g in then' && then'[g].page == a
    {
      var g :| g in now && now[g].page == a;
      assert then'[g].page == a;
    }
  }

  /** No buffer that was given back and is still mapped lies over these pages. */
  ghost predicate Undisturbed(store: map<nat, Buffer>, returned: set<nat>, page: nat, pages: nat) {
    forall g <- returned :: g in store ==> store[g].page + store[g].Frames() <= page || page + pages <= store[g].page
  }

  datatype Reply = Done | InvalidHandle | PermissionDenied

  class BufferSpace {
    var free: seq<Range>
    /** The handles to buffers this process owns. One buffer can have several: a process
        may send a handle to itself over a channel. */
    var handles: map<nat, nat>
    /** The buffers this process owns, by identity, as long as anything holds them. */
    var store: map<nat, Buffer>
    /** Handles to buffers of other processes, received over a channel. */
    var foreign: set<nat>
    /** Number of buffers made so far. */
    var made: nat
    ghost var live: map<nat, nat>
    /** Buffers whose range was given back through one handle and that are still held. */
    ghost var returned: set<nat>

    /** Free ranges and live ranges partition the region; live ranges are those of the
        buffers not given back, each as long as the buffer has frames. */
    ghost predicate Valid()
      reads this
    {
      Partition(free, live, BUFFER_FIRST, BUFFER_FIRST + BUFFER_PAGES) && Held()
    }

    ghost predicate Held()
      reads this
    {
      && RangesOf(store - returned, live) && returned <= store.Keys
      && (forall b <- store :: b < made && Consistent(store[b]))
      && (forall h <- handles :: handles[h] in store) && foreign !! handles.Keys
    }

    /** The buffer behind a handle. */
    function At(h: nat): Buffer
      requires h in handles && handles[h] in store
      reads this
    {
      store[handles[h]]
    }

    constructor ()
      ensures Valid() && handles == map[] && store == map[] && foreign == {} && returned == {} && live == map[]
      ensures made == 0 && free == [Range(BUFFER_FIRST, BUFFER_PAGES)]
    {
      free := [Range(BUFFER_FIRST, BUFFER_PAGES)];
      handles, store, foreign, made := map[], map[], {}, 0;
      live, returned := map[], {};
      new;
      forall x: nat
        ensures InFree(free, x) <==> Holds(Range(BUFFER_FIRST, BUFFER_PAGES), x)
      {
        InFreeOne(Range(BUFFER_FIRST, BUFFER_PAGES), x);
      }
    }

    /** `alloc_buffer_vaddr`. */
    method AllocVaddr(pages: nat) returns (r: Option<nat>)
      requires pages > 0 && Partition(free, live, BUFFER_FIRST, BUFFER_FIRST + BUFFER_PAGES)
      modifies this`free, this`live
      ensures Partition(free, live, BUFFER_FIRST, BUFFER_FIRST + BUFFER_PAGES)
      ensures r == None <==> forall f <- old(free) :: f.size < pages
      ensures r == None ==> free == old(free) && live == old(live)
      ensures r.Some? ==> FirstFit(old(free), pages, r.value) && free == Allocated(old(free), pages)
      ensures r.Some? ==> r.value !in old(live) && live == old(live)[r.value := pages]
    {
      hide Partition, Allocated, FirstFit;
      var i := FindFit(free, pages);
      if i == None {
        return None;
      }
      var addr := free[i.value].addr;
      assert free[i.value] in free;
      AllocatedAt(free, pages, i.value);
      TakePartition(free, live, BUFFER_FIRST, BUFFER_FIRST + BUFFER_PAGES, i.value, pages);
      free := TakeFrom(free, i.value, pages);
      live := live[addr := pages];
      return Some(addr);
    }

    /** `free_buffer_vaddr` of any range. A live range is free afterwards. A range that is
        not live any more is harmless exactly when it is a free range of its own. */
    method FreeVaddr(addr: nat, pages: nat, ghost isLive: bool)
      requires pages > 0 && Partition(free, live, BUFFER_FIRST, BUFFER_FIRST + BUFFER_PAGES)
      requires isLive ==> addr in live && live[addr] == pages
      modifies this`free, this`live
      ensures live == if isLive then old(live) - {addr} else old(live)
      ensures Partition(free, live, BUFFER_FIRST, BUFFER_FIRST + BUFFER_PAGES) <==>
                isLive || Range(addr, pages) in old(free)
      ensures isLive && live == map[] ==> free == [Range(BUFFER_FIRST, BUFFER_PAGES)]
      ensures exists k: nat :: IsSlot(old(free), addr, k) && free == Inserted(old(free), k, addr, pages)
    {
      hide Partition, Inserted, Sorted;
      ghost var hi := BUFFER_FIRST + BUFFER_PAGES;
      assert Sorted(free) by { PartitionSorted(free, live, BUFFER_FIRST, hi); }
      var k := FindSlot(free, addr);
      if isLive {
        InsertedLive(free, live, BUFFER_FIRST, hi, k, addr);
      } else {
        InsertedAgain(free, live, BUFFER_FIRST, hi, k, addr, pages);
      }
      PutBack(k, addr, pages);
      if isLive { live := live - {addr}; }
      if isLive && live == map[] { Collapsed(free, BUFFER_FIRST, hi); }
    }

    /** The edit of the map of free ranges in `free_buffer_vaddr`. */
    method PutBack(k: nat, addr: nat, pages: nat)
      requires k <= |free|
      modifies this`free
      ensures free == Inserted(old(free), k, addr, pages)
    {
      var end := addr + pages;
      var prev, next := k > 0 && free[k - 1].End() == addr, k < |free| && free[k].addr == end;
      if prev && next {
        free := free[..k - 1] + [Range(free[k - 1].addr, free[k - 1].size + pages + free[k].size)] + free[k + 1..];
      } else if prev {
        free := free[..k - 1] + [Range(free[k - 1].addr, free[k - 1].size + pages)] + free[k..];
      } else if next {
        free := free[..k] + [Range(addr, pages + free[k].size)] + free[k + 1..];
      } else if k < |free| && free[k].addr == addr {
        free := free[..k] + [Range(addr, pages)] + free[k + 1..];
      } else {
        free := free[..k] + [Range(addr, pages)] + free[k..];
      }
    }

    /** `SharedBuffer::alloc`: a buffer of zeroed frames at a fresh range. */
    method NewBuffer(size: nat) returns (b: Option<Buffer>)
      requires Partition(free, live, BUFFER_FIRST, BUFFER_FIRST + BUFFER_PAGES)
      modifies this`free, this`live
      ensures Partition(free, live, BUFFER_FIRST, BUFFER_FIRST + BUFFER_PAGES)
      ensures b == None ==> free == old(free) && live == old(live)
      ensures b.Some? ==> Consistent(b.value) && b.value.size == size && b.value.bytes == Zeros(b.value.Frames() * PAGE)
      ensures b.Some? ==> b.value.page !in old(live) && live == old(live)[b.value.page := b.value.Frames()]
      ensures b.Some? ==>
                FirstFit(old(free), PagesFor(size), b.value.page) && free == Allocated(old(free), PagesFor(size))
      ensures b.Some? ==> 0 < size <= MAX_BUFFER_SIZE
      ensures b == None <==> size == 0 || size > MAX_BUFFER_SIZE || forall f <- old(free) :: f.size < PagesFor(size)
    {
      hide Partition, Allocated, FirstFit;
      if size == 0 || size > MAX_BUFFER_SIZE {
        return None;
      }
      PagesBounds(size);
      var pages := PagesFor(size);
      var page := AllocVaddr(pages);
      if page == None {
        return None;
      }
      return Some(Buffer(page.value, Zeros(pages * PAGE), size));
    }

    /** `handle_alloc`; `h` is the handle the table gives out, none if it is full. */
    method HandleAlloc(size: nat, h: Option<nat>) returns (r: Option<nat>)
      requires Valid() && (h.Some? ==> h.value !in handles && h.value !in foreign)
      modifies this
      ensures Valid() && foreign == old(foreign) && returned == old(returned)
      ensures r.Some? <==> h.Some? && 0 < size <= MAX_BUFFER_SIZE && exists f <- old(free) :: f.size >= PagesFor(size)
      ensures r.Some? ==> r == h && handles == old(handles)[r.value := old(made)] && made == old(made) + 1
      ensures r.Some? ==> store.Keys == old(store).Keys + {old(made)} && old(made) !in old(store)
      ensures r.Some? ==> forall g <- old(store) :: store[g] == old(store)[g]
      ensures r.Some? ==> At(r.value).size == size && At(r.value).bytes == Zeros(At(r.value).Frames() * PAGE)
      ensures r.Some? ==>
                FirstFit(old(free), PagesFor(size), At(r.value).page) && free == Allocated(old(free), PagesFor(size))
      ensures r.Some? ==> live == old(live)[At(r.value).page := At(r.value).Frames()]
      ensures r == None ==> handles == old(handles) && store == old(store) && live == old(live) && free == old(free)
    {
      hide Partition, Consistent, RangesOf, Allocated, FirstFit;
      var b := NewBuffer(size);
      if b == None {
        return None;
      }
      if h == None {
        var pages := (size + 4095) / 4096;
        SameFrames(b.value);
        FreeVaddr(b.value.page, pages, true);
        assert live == old(live);
        FreeListUnique(free, old(free), live, BUFFER_FIRST, BUFFER_FIRST + BUFFER_PAGES);
        return None;
      }
      AddRange(store - returned, old(live), made, b.value);
      CurrentWith(store, returned, made, b.value);
      store := store[made := b.value];
      handles := handles[h.value := made];
      made := made + 1;
      return h;
    }

    /** `Buffer::resize`: only when the number of pages stays the same. Every handle of the
        buffer sees the new size. */
    method ResizeInPlace(id: nat, newSize: nat) returns (ok: bool)
      requires Valid() && id in store
      modifies this`store
      ensures Valid() && ok == (0 < newSize <= MAX_BUFFER_SIZE && PagesFor(newSize) == old(store)[id].Frames())
      ensures store == if ok then old(store)[id := old(store)[id].(size := newSize)] else old(store)
    {
      hide Partition, RangesOf;
      if newSize == 0 || newSize > MAX_BUFFER_SIZE || PagesFor(newSize) != store[id].Frames() {
        return false;
      }
      PagesBounds(newSize);
      PagesBounds(store[id].size);
      CurrentResized(store, returned, live, id, newSize);
      store := store[id := store[id].(size := newSize)];
      return true;
    }

    /** Whether a buffer is held apart from handle `h`: by another handle, or by a message
        on its way, which the caller says. */
    predicate HeldElsewhere(h: nat, id: nat, inFlight: bool)
      reads this
    {
      inFlight || exists g <- handles :: g != h && handles[g] == id
    }

    /** A handle lets go of a buffer and the range of the buffer is given back, as
        `handle_free` and the moving half of `handle_resize` do. The partition survives
        exactly when the range was not given back before, or is a free range of its own. */
    method LetGo(id: nat, heldElsewhere: bool)
      requires Valid() && id in store
      requires heldElsewhere || forall g <- handles :: handles[g] != id
      modifies this`free, this`live, this`store, this`returned
      ensures Held()
      ensures Valid() <==> id !in old(returned) || Range(old(store)[id].page, old(store)[id].Frames()) in old(free)
      ensures live == if id in old(returned) then old(live) else old(live) - {old(store)[id].page}
      ensures store == if heldElsewhere then old(store) else old(store) - {id}
      ensures returned == if heldElsewhere then old(returned) + {id} else old(returned) - {id}
      ensures id !in old(returned) && live == map[] ==> free == [Range(BUFFER_FIRST, BUFFER_PAGES)]
      ensures exists k: nat ::
                && IsSlot(old(free), old(store)[id].page, k)
                && free == Inserted(old(free), k, old(store)[id].page, old(store)[id].Frames())
    {
      hide Partition, RangesOf, Inserted, Consistent;
      var b := store[id];
      var pages := (b.size + 4095) / 4096;
      SameFrames(b);
      CurrentWithout(store, returned, id);
      if id !in returned {
        RangeThere(store - returned, live, id);
        DropRange(store - returned, live, id);
      } else {
        assert (store - returned) - {id} == store - returned;
      }
      FreeVaddr(b.page, pages, id !in returned);
      if heldElsewhere {
        returned := returned + {id};
      } else {
        store := store - {id};
        returned := returned - {id};
      }
    }

    /** `handle_free`: the handle goes, and the range with it if this process owns it. */
    method HandleFree(h: nat, inFlight: bool) returns (r: Reply)
      requires Valid()
      modifies this
      ensures r == (if h in old(handles) || h in old(foreign) then Done else InvalidHandle)
      ensures handles == old(handles) - {h} && foreign == old(foreign) - {h} && made == old(made)
      ensures h !in old(handles) ==> Valid() && unchanged(`free, `live, `store, `returned)
      ensures h in old(handles) ==>
                var id, b := old(handles)[h], old(At(h));
                && (Valid() <==> id !in old(returned) || Range(b.page, b.Frames()) in old(free))
                && live == (if id in old(returned) then old(live) else old(live) - {b.page})
                && store == (if old(HeldElsewhere(h, id, inFlight)) then old(store) else old(store) - {id})
                && returned == (if old(HeldElsewhere(h, id, inFlight)) then old(returned) + {id}
                                else old(returned) - {id})
                && (id !in old(returned) && live == map[] ==> free == [Range(BUFFER_FIRST, BUFFER_PAGES)])
                && exists k: nat :: IsSlot(old(free), b.page, k) && free == Inserted(old(free), k, b.page, b.Frames())
    {
      hide Partition, RangesOf, Inserted, Consistent;
      if h in foreign {
        foreign := foreign - {h};
        return Done;
      }
      if h !in handles {
        return InvalidHandle;
      }
      var id := handles[h];
      var elsewhere := HeldElsewhere(h, id, inFlight);
      handles := handles - {h};
      LetGo(id, elsewhere);
      return Done;
    }

    /** `handle_resize`: refused to anyone but the owner; in place when the page count
        stays, otherwise a new buffer with the data copied and the old range given back. */
    method HandleResize(h: nat, newSize: nat, inFlight: bool) returns (r: Reply)
      requires Valid()
      modifies this
      ensures handles.Keys == old(handles).Keys && foreign == old(foreign)
      ensures r == PermissionDenied <==> h in old(foreign)
      ensures r == Done <==> h in old(handles) && 0 < newSize <= MAX_BUFFER_SIZE &&
                             (PagesFor(newSize) == old(At(h)).Frames() ||
                              exists f <- old(free) :: f.size >= PagesFor(newSize))
      ensures r != Done ==> Valid() && unchanged(this)
      ensures r == Done && PagesFor(newSize) == old(At(h)).Frames() ==>
                && Valid() && unchanged(`handles, `free, `live, `returned, `made)
                && store == old(store)[old(handles)[h] := old(At(h)).(size := newSize)]
      ensures r == Done && PagesFor(newSize) != old(At(h)).Frames() ==> Moved(h, newSize, inFlight)
    {
      hide Partition, RangesOf, Inserted, Consistent, Allocated, FirstFit;
      if h in foreign {
        return PermissionDenied;
      }
      if h !in handles {
        return InvalidHandle;
      }
      var id := handles[h];
      var ok := ResizeInPlace(id, newSize);
      if ok {
        return Done;
      }
      ok := Reallocate(h, newSize, inFlight);
      return if ok then Done else InvalidHandle;
    }

    /** The second half of `handle_resize`. */
    method Reallocate(h: nat, newSize: nat, inFlight: bool) returns (ok: bool)
      requires Valid() && h in handles
      modifies this
      ensures foreign == old(foreign)
      ensures ok <==> 0 < newSize <= MAX_BUFFER_SIZE && exists f <- old(free) :: f.size >= PagesFor(newSize)
      ensures if ok then Moved(h, newSize, inFlight) else Valid() && unchanged(this)
    {
      hide Partition, RangesOf, Inserted, Consistent, Allocated, FirstFit;
      var id := handles[h];
      var was := store[id];
      var elsewhere := HeldElsewhere(h, id, inFlight);
      var kept := if newSize < was.size then newSize else was.size;
      var b := NewBuffer(newSize);
      if b == None {
        return false;
      }
      Copied(was, b.value, kept);
      var copy := b.value.(bytes := was.bytes[..kept] + b.value.bytes[kept..]);
      AddRange(store - returned, old(live), made, copy);
      CurrentWith(store, returned, made, copy);
      store := store[made := copy];
      handles := handles[h := made];
      made := made + 1;
      LetGo(id, elsewhere);
      return true;
    }

    /** A resize that moves the buffer: the handle names a new buffer of the new size at a
        fresh range, which holds the data up to the smaller size unless a buffer that was
        given back lies over either range; the old range is given back. */
    twostate predicate Moved(h: nat, newSize: nat, inFlight: bool)
      requires h in old(handles) && old(handles)[h] in old(store)
      reads this
    {
      var id, was, pages := old(handles)[h], old(At(h)), PagesFor(newSize);
      && handles == old(handles)[h := old(made)] && made == old(made) + 1 && old(made) in store
      && var b := store[old(made)];
         && b.size == newSize && Consistent(b) && FirstFit(old(free), pages, b.page)
         && store - {old(made)} == (if old(HeldElsewhere(h, id, inFlight)) then old(store) else old(store) - {id})
         && (&& Undisturbed(old(store), old(returned), was.page, was.Frames())
             && Undisturbed(old(store), old(returned), b.page, b.Frames()) ==>
               var kept := if newSize < was.size then newSize else was.size;
               kept <= |b.bytes| && kept <= |was.bytes| && b.bytes[..kept] == was.bytes[..kept])
         && live == (if id in old(returned) then old(live)[b.page := b.Frames()]
                     else old(live)[b.page := b.Frames()] - {was.page})
         && (Valid() <==> id !in old(returned) || Range(was.page, was.Frames()) in Allocated(old(free), pages))
    }

    /** A buffer arrives under a new handle: one of another process, or one of this
        process that it sent itself. */
    method Receive(h: nat, own: Option<nat>)
      requires Valid() && h !in handles && h !in foreign && (own.Some? ==> own.value in store)
      modifies this`foreign, this`handles
      ensures Valid()
      ensures if own == None then foreign == old(foreign) + {h} && handles == old(handles)
              else handles == old(handles)[h := own.value] && foreign == old(foreign)
    {
      match own {
        case None => foreign := foreign + {h};
        case Some(id) => handles := handles[h := id];
      }
    }
  }

  lemma RangeThere(buffers: map<nat, Buffer>, live: map<nat, nat>, h: nat)
    requires RangesOf(buffers, live) && h in buffers
    ensures buffers[h].page in live && live[buffers[h].page] == buffers[h].Frames()
  {
  }

  lemma SameFrames(b: Buffer)
    requires Consistent(b)
    ensures (b.size + 4095) / 4096 == b.Frames() > 0
  {
  }

  lemma Copied(was: Buffer, b: Buffer, kept: nat)
    requires Consistent(was) && Consistent(b) && kept <= b.size && kept <= was.size
    ensures kept <= |b.bytes| && kept <= |was.bytes|
    ensures Consistent(b.(bytes := was.bytes[..kept] + b.bytes[kept..]))
    ensures b.(bytes := was.bytes[..kept] + b.bytes[kept..]).Frames() == b.Frames()
  {
    PagesBounds(b.size);
    PagesBounds(was.size);
    assert |was.bytes[..kept] + b.bytes[kept..]| == |b.bytes|;
  }

  /** One buffer of one page at the start of the region, given back twice: the second time
      the entry for the whole region is written over by one page. */
  lemma DoubleFreeExample()
    ensures var all := Range(BUFFER_FIRST, BUFFER_PAGES);
            && Inserted([Range(BUFFER_FIRST + 1, BUFFER_PAGES - 1)], 0, BUFFER_FIRST, 1) == [all]
            && Inserted([all], 0, BUFFER_FIRST, 1) == [Range(BUFFER_FIRST, 1)]
            && !Partition([Range(BUFFER_FIRST, 1)], map[], BUFFER_FIRST, BUFFER_FIRST + BUFFER_PAGES)
  {
    if Partition([Range(BUFFER_FIRST, 1)], map[], BUFFER_FIRST, BUFFER_FIRST + BUFFER_PAGES) {
      Collapsed([Range(BUFFER_FIRST, 1)], BUFFER_FIRST, BUFFER_FIRST + BUFFER_PAGES);
    }
  }

  /** The run that leads there: allocate a page, send the handle to oneself, free both. */
  method DoubleFree() returns (s: BufferSpace)
    ensures s.free == [Range(BUFFER_FIRST, 1)] && s.live == map[] && s.handles == map[] && s.Held() && !s.Valid()
  {
    hide Partition, RangesOf, Consistent;
    s := new BufferSpace();
    var all := Range(BUFFER_FIRST, BUFFER_PAGES);
    FitsOnly(all, 1);
    assert PagesFor(4096) == 1 && s.free[0] == all;
    var h := s.HandleAlloc(4096, Some(1));
    assert h == Some(1);
    assert s.At(1).Frames() == 1 by { SameFrames(s.At(1)); }
    s.Receive(2, Some(0));
    var first := s.HandleFree(1, false);
    assert s.live == map[] && s.free == [all];
    assert s.handles[2] == 0;
    var second := s.HandleFree(2, false);
    InsertedOnly(all, 1);
  }

  lemma FitsOnly(all: Range, size: nat)
    requires 0 < size < all.size
    ensures IsFit([all], size, 0) && Allocated([all], size) == [Range(all.addr + size, all.size - size)]
    ensures forall a :: FirstFit([all], size, a) ==> a == all.addr
  {
    AllocatedAt([all], size, 0);
  }

  lemma InsertedOnly(all: Range, size: nat)
    requires 0 < size < all.size
    ensures forall k: nat :: IsSlot([all], all.addr, k) ==>
              Inserted([all], k, all.addr, size) == [Range(all.addr, size)]
  {
    forall k: nat | IsSlot([all], all.addr, k)
      ensures k == 0
    {
      assert [all][0].addr == all.addr;
    }
  }
}
