/** Four-level paging as the processor sees it: entries, index arithmetic, the
    hardware walk, and the self-map addresses computed by `recursive.rs`. */
module Paging {
  const PAGE_SIZE := 0x1000
  const HUGE_PAGE_SIZE := 0x20_0000
  const GIANT_PAGE_SIZE := 0x4000_0000

  const ENTRIES := 512
  const RECURSIVE_INDEX := 510

  /** Number of 4 KB pages in the 48-bit address range. */
  const PAGES := 0x10_0000_0000

  datatype Flags = Flags(present: bool, writable: bool, user: bool, huge: bool, noExec: bool)

  datatype Entry = Entry(addr: nat, flags: Flags)

  type Table = seq<Entry>

  const UNUSED: Entry := Entry(0, Flags(false, false, false, false, false))

  function ZeroTable(): (t: Table)
    ensures |t| == ENTRIES && forall e <- t :: e == UNUSED
  {
    seq(ENTRIES, _ => UNUSED)
  }

  /** Mapping options of `memory/mod.rs`, and the leaf flags they stand for. */
  datatype Options = Options(user: bool, executable: bool, writable: bool)
  {
    function ToFlags(): Flags {
      Flags(true, writable, user, false, !executable)
    }
  }

  // ---------------------------------------------------------------------------
  // Index arithmetic
  // ---------------------------------------------------------------------------

  /** A 4 KB page of the 48-bit address range, named by its four table indices. */
  datatype Page = Page(i4: nat, i3: nat, i2: nat, i1: nat)

  predicate Good(p: Page) {
    p.i4 < ENTRIES && p.i3 < ENTRIES && p.i2 < ENTRIES && p.i1 < ENTRIES
  }

  /** The 36-bit number formed by the four indices. */
  function Number(p: Page): nat {
    ((p.i4 * 512 + p.i3) * 512 + p.i2) * 512 + p.i1
  }

  /** The page with a given number: 9 bits per level. */
  function PageOf(n: nat): (p: Page)
    requires n < PAGES
    ensures Good(p) && Number(p) == n
  {
    Page(n / 512 / 512 / 512, n / 512 / 512 % 512, n / 512 % 512, n % 512)
  }

  /** The page selected by an address (bits 12-47). */
  function PageAt(v: nat): (p: Page)
    ensures Good(p)
  {
    PageOf(v / PAGE_SIZE % PAGES)
  }

  lemma NumberBound(p: Page)
    requires Good(p)
    ensures Number(p) < PAGES
  {
  }

  lemma Horner(a: nat, i: nat)
    requires i < 512
    ensures (a * 512 + i) / 512 == a && (a * 512 + i) % 512 == i
  {
  }

  lemma PageOfNumber(p: Page)
    requires Good(p)
    ensures Number(p) < PAGES && PageOf(Number(p)) == p
  {
    NumberBound(p);
    Horner((p.i4 * 512 + p.i3) * 512 + p.i2, p.i1);
    Horner(p.i4 * 512 + p.i3, p.i2);
    Horner(p.i4, p.i3);
  }

  /** The slot of page `p` in its level-`l` table. */
  function Index(p: Page, l: nat): nat
    requires 1 <= l <= 4
  {
    if l == 4 then p.i4 else if l == 3 then p.i3 else if l == 2 then p.i2 else p.i1
  }

  /** Whether a page lies in PML4 slot 510, the self-map window. */
  predicate InWindow(p: Page) {
    p.i4 == RECURSIVE_INDEX
  }

  // ---------------------------------------------------------------------------
  // Hardware walk
  // ---------------------------------------------------------------------------

  /** Outcome of a translation: a fault, or a physical byte address with the
      rights accumulated over all levels. */
  datatype Access = Fault | Mapped(pa: nat, user: bool, writable: bool, noExec: bool)

  function LeafSpan(l: nat): (s: nat)
    requires 1 <= l <= 3
    ensures s > 0
  {
    if l == 1 then PAGE_SIZE else if l == 2 then HUGE_PAGE_SIZE else GIANT_PAGE_SIZE
  }

  /** Where a leaf entry found at level `l` sends address `v`. */
  function LeafAddress(e: Entry, l: nat, v: nat): nat
    requires 1 <= l <= 3
  {
    if l == 1 then e.addr + v % PAGE_SIZE
    else e.addr / LeafSpan(l) * LeafSpan(l) + v % LeafSpan(l)
  }

  /** An aligned leaf of each size sends an address to the same offset in its frame. */
  lemma LeafOffsets(e: Entry, v: nat)
    ensures LeafAddress(e, 1, v) == e.addr + v % 0x1000
    ensures e.addr % 0x20_0000 == 0 ==> LeafAddress(e, 2, v) == e.addr + v % 0x20_0000
    ensures e.addr % 0x4000_0000 == 0 ==> LeafAddress(e, 3, v) == e.addr + v % 0x4000_0000
  {
  }

  predicate IsLeaf(e: Entry, l: nat) {
    l == 1 || (l <= 3 && e.flags.huge)
  }

  function WalkFrom(mem: map<nat, Table>, t: nat, l: nat, v: nat, user: bool, writable: bool, noExec: bool): Access
    requires 1 <= l <= 4
    decreases l
  {
    if t !in mem || |mem[t]| != ENTRIES then Fault
    else
      var e := mem[t][Index(PageAt(v), l)];
      if !e.flags.present then Fault
      else
        var u := user && e.flags.user;
        var w := writable && e.flags.writable;
        var x := noExec || e.flags.noExec;
        if IsLeaf(e, l) then Mapped(LeafAddress(e, l, v), u, w, x)
        else if l == 1 then Fault
        else WalkFrom(mem, e.addr, l - 1, v, u, w, x)
  }

  /** Translation of `v` by the processor when CR3 holds `root`. */
  function HwWalk(root: nat, mem: map<nat, Table>, v: nat): Access {
    WalkFrom(mem, root, 4, v, true, true, false)
  }

  // ---------------------------------------------------------------------------
  // Self-map addresses
  // ---------------------------------------------------------------------------

  /** Address with the given four indices and offset zero, sign-extended for the
      upper half as `table_addr` does with its fixed top bits. */
  function WindowAddress(i4: nat, i3: nat, i2: nat, i1: nat): nat {
    0xFFFF_0000_0000_0000 + i4 * 0x80_0000_0000 + i3 * 0x4000_0000 + i2 * 0x20_0000 + i1 * 0x1000
  }

  /** Virtual address at which the level-`l` table on `v`'s walk can be accessed. */
  function TableAddr(v: nat, l: nat): nat
    requires 1 <= l <= 4
  {
    var r := RECURSIVE_INDEX;
    var p := PageAt(v);
    if l == 4 then WindowAddress(r, r, r, r)
    else if l == 3 then WindowAddress(r, r, r, Index(p, 4))
    else if l == 2 then WindowAddress(r, r, Index(p, 4), Index(p, 3))
    else WindowAddress(r, Index(p, 4), Index(p, 3), Index(p, 2))
  }

  /** The word `table_addr` assembles from four 9-bit indices, with the shifts of
      the source. */
  function WindowAddressBits(a: bv64, b: bv64, c: bv64, d: bv64): bv64 {
    0xFFFF_0000_0000_0000 | ((a << 39) | (b << 30) | (c << 21) | (d << 12))
  }

  /** No index is lost: each comes back from its own bit field, the top sixteen
      bits are the sign extension and the page offset is zero. */
  lemma WindowAddressBitsFields(a: bv64, b: bv64, c: bv64, d: bv64)
    requires a < 512 && b < 512 && c < 512 && d < 512
    ensures var w := WindowAddressBits(a, b, c, d);
            && w >> 48 == 0xFFFF && w & 0xFFF == 0
            && (w >> 39) & 0x1FF == a && (w >> 30) & 0x1FF == b
            && (w >> 21) & 0x1FF == c && (w >> 12) & 0x1FF == d
  {
  }

  /** Or-ing disjoint fields is adding them, which is how `WindowAddress` writes it. */
  lemma WindowAddressBitsIsSum(a: bv64, b: bv64, c: bv64, d: bv64)
    requires a < 512 && b < 512 && c < 512 && d < 512
    ensures WindowAddressBits(a, b, c, d) == 0xFFFF_0000_0000_0000 + (a << 39) + (b << 30) + (c << 21) + (d << 12)
  {
  }

  lemma WindowAddressPage(i4: nat, i3: nat, i2: nat, i1: nat)
    requires i4 < 512 && i3 < 512 && i2 < 512 && i1 < 512
    ensures PageAt(WindowAddress(i4, i3, i2, i1)) == Page(i4, i3, i2, i1)
    ensures WindowAddress(i4, i3, i2, i1) % PAGE_SIZE == 0
  {
    var p := Page(i4, i3, i2, i1);
    PageOfNumber(p);
    assert WindowAddress(i4, i3, i2, i1) == (0xFFFF * PAGES + Number(p)) * PAGE_SIZE;
    PageAtNumber(0xFFFF, Number(p));
  }

  lemma PageAtNumber(top: nat, n: nat)
    requires n < PAGES
    ensures PageAt((top * PAGES + n) * PAGE_SIZE) == PageOf(n)
    ensures (top * PAGES + n) * PAGE_SIZE % PAGE_SIZE == 0
  {
    var m := top * PAGES + n;
    assert m * PAGE_SIZE / PAGE_SIZE == m;
    assert m % PAGES == n;
  }

  /** Stepping an aligned address by whole pages steps the page number. */
  lemma StepPage(base: nat, j: nat)
    requires Number(PageAt(base)) + j < PAGES
    ensures PageAt(base + j * PAGE_SIZE) == PageOf(Number(PageAt(base)) + j)
  {
    hide PageOf, Number;
    StepQuotient(base, j);
    StepRemainder(base / PAGE_SIZE, j);
  }

  lemma StepQuotient(base: nat, j: nat)
    ensures (base + j * PAGE_SIZE) / PAGE_SIZE == base / PAGE_SIZE + j
  {
  }

  lemma StepRemainder(a: nat, j: nat)
    requires a % PAGES + j < PAGES
    ensures (a + j) % PAGES == a % PAGES + j
  {
    assert a + j == PAGES * (a / PAGES) + (a % PAGES + j);
  }
}
