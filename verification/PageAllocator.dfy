/**
 The buddy page allocator (kernel/mm/page.c), for any largest order and any
 number of largest pages.  The kernel's instance has orders 0..3, sixteen 2 KB
 pages and minimum pages of 256 bytes.
 */
module PageAllocation {
  import opened Arithmetic
  import opened Options
  import opened Sequences
  import opened Bitops
  import opened Buddy

  /** log2 of MIN_PAGE_SIZE (256 bytes) */
  const MIN_PAGE_SHIFT: nat := 8

  /** `1 << n` */
  function Pow2(n: nat): (r: nat)
    ensures r > 0
  {
    if n == 0 then 1 else 2 * Pow2(n - 1)
  }

  /** `addr & ~((1 << n) - 1)` */
  function AlignDown(addr: nat, n: nat): nat {
    addr - Remainder(addr, Pow2(n))
  }

  /** `page_idx_to_addr` */
  function PageIdxToAddr(base: nat, idx: nat, order: nat): (addr: nat)
    ensures base <= addr
  {
    base + idx * Pow2(order + MIN_PAGE_SHIFT)
  }

  /** `addr_to_page_idx` */
  function AddrToPageIdx(base: nat, addr: nat, order: nat): nat
    requires base <= addr
  {
    Quotient(addr - base, Pow2(order + MIN_PAGE_SHIFT))
  }

  /** Index to address and back is the identity. */
  lemma AddrIdxInverse(base: nat, idx: nat, order: nat)
    ensures AddrToPageIdx(base, PageIdxToAddr(base, idx, order), order) == idx
  {
    DivModUnique(idx * Pow2(order + MIN_PAGE_SHIFT), Pow2(order + MIN_PAGE_SHIFT), idx, 0);
  }

  /** Address to index and back is the identity exactly for the addresses of blocks. */
  lemma IdxAddrInverse(base: nat, addr: nat, order: nat)
    requires base <= addr
    ensures PageIdxToAddr(base, AddrToPageIdx(base, addr, order), order) == addr
       <==> Remainder(addr - base, Pow2(order + MIN_PAGE_SHIFT)) == 0
  {
    var d := Pow2(order + MIN_PAGE_SHIFT);
    assert addr - base == Quotient(addr - base, d) * d + Remainder(addr - base, d);
  }

  /** A larger power of two is a multiple of a smaller one. */
  lemma {:induction false} Pow2Multiple(a: nat, b: nat) returns (m: nat)
    requires a <= b
    ensures Pow2(b) == m * Pow2(a) && m > 0
  {
    if a == b { return 1; }
    var m' := Pow2Multiple(a, b - 1);
    m := 2 * m';
    assert 2 * (m' * Pow2(a)) == (2 * m') * Pow2(a);
  }

  predicate Aligned(addr: nat, n: nat) {
    Remainder(addr, Pow2(n)) == 0
  }

  /** Masking the address of a block gives the address of the block of twice its size
      around it exactly when the base of the pool is aligned to that size. */
  lemma MaskIsParent(base: nat, idx: nat, order: nat)
    ensures AlignDown(PageIdxToAddr(base, idx, order), order + 1 + MIN_PAGE_SHIFT)
         == PageIdxToAddr(base, idx / 2, order + 1)
       <==> Aligned(base, order + 1 + MIN_PAGE_SHIFT)
  {
    var s := Pow2(order + MIN_PAGE_SHIFT);
    assert Pow2(order + 1 + MIN_PAGE_SHIFT) == 2 * s;
    MaskArithmetic(base, idx, s);
  }

  lemma MaskArithmetic(base: nat, idx: nat, s: nat)
    requires s > 0
    ensures base + idx * s - Remainder(base + idx * s, 2 * s) == base + (idx / 2) * (2 * s)
       <==> Remainder(base, 2 * s) == 0
  {
    var d, h, odd := 2 * s, idx / 2, idx % 2;
    var q, r := Quotient(base, d), Remainder(base, d);
    MaskedAddress(base, idx, s, q, h, odd, r);
    assert base + h * d == (q + h) * d + r;
    assert odd * s == if odd == 1 then s else 0;
    MaskCases(base, h * d, (q + h) * d, q + h, odd * s + r, d, r);
  }

  /** `a + h` is `x` blocks and `low` bytes, where `low` may reach into the next block. */
  lemma MaskCases(a: nat, h: nat, xd: nat, x: nat, low: nat, d: nat, r: nat)
    requires d > 0 && r < d && xd == x * d && a + h == xd + r && r <= low < r + d
    ensures xd + low - Remainder(xd + low, d) == a + h <==> r == 0
  {
    if low < d {
      DivModUnique(xd + low, d, x, low);
    } else {
      assert (x + 1) * d == x * d + d;
      DivModUnique(xd + low, d, x + 1, low - d);
    }
  }

  lemma MaskedAddress(base: nat, idx: nat, s: nat, q: nat, h: nat, odd: nat, r: nat)
    requires base == q * (2 * s) + r && idx == 2 * h + odd
    ensures base + idx * s == (q + h) * (2 * s) + (odd * s + r)
  {
    calc {
      base + idx * s;
      q * (2 * s) + r + (2 * h + odd) * s;
      q * (2 * s) + r + h * (2 * s) + odd * s;
      (q + h) * (2 * s) + (odd * s + r);
    }
  }

  /** `size_to_page_order`; `None` is the -1 that is too large an order. */
  function SizeToPageOrder(size: nat): (r: Option<nat>)
    ensures r.Some? ==> size <= Pow2(r.value + MIN_PAGE_SHIFT) && r.value <= 3
    ensures r.Some? && r.value > 0 ==> Pow2(r.value - 1 + MIN_PAGE_SHIFT) < size
    ensures r.None? ==> Pow2(3 + MIN_PAGE_SHIFT) < size
  {
    PageSizes();
    if size <= 256 then Some(0)
    else if size <= 512 then Some(1)
    else if size <= 1024 then Some(2)
    else if size <= 2048 then Some(3)
    else None
  }

  lemma PageSizes()
    ensures Pow2(8) == 256 && Pow2(9) == 512 && Pow2(10) == 1024 && Pow2(11) == 2048
  {
    assert Pow2(4) == 16;
    assert Pow2(8) == 256;
  }

  lemma {:induction false} DownDoubles(i: nat, n: nat)
    ensures Down(i, n + 1) == 2 * Down(i, n)
    decreases n
  {
    if n > 0 { DownDoubles(2 * i, n - 1); }
  }

  /** The policy of `alloc_pages`: the lowest block of the smallest order that
      has one, cut down from its low end. */
  ghost predicate FirstFit(u: set<nat>, k: nat, order: nat, idx: nat) {
    exists o: nat, i: nat :: LowestOfSmallest(u, k, order, o, i) && idx == Down(i, o - order)
  }

  /** `(o, i)` is the lowest canonical block of the smallest order from `order` up. */
  ghost predicate LowestOfSmallest(u: set<nat>, k: nat, order: nat, o: nat, i: nat) {
    && order <= o
    && Canonical(u, k, o, i)
    && (forall o': nat, i': nat | order <= o' < o :: !Canonical(u, k, o', i'))
    && (forall i': nat | i' < i :: !Canonical(u, k, o, i'))
  }

  /** With no free page of that order or above, no aligned block is wholly free. */
  lemma NoneLargeEnough(f: seq<set<nat>>, u: set<nat>, k: nat, order: nat)
    requires Decomposes(f, u, k)
    requires forall o: nat | order <= o <= k :: f[o] == {}
    ensures forall i: nat :: !(order <= k && Whole(u, order, i))
  {
    WholeBlockIffCanonical(u, k, order);
    forall o: nat, i: nat | order <= o <= k
      ensures !Canonical(u, k, o, i)
    {
      assert i !in f[o];
    }
  }

  /** The first free page of the least non-empty order is the first fit. */
  lemma FirstFitIn(f: seq<set<nat>>, u: set<nat>, k: nat, order: nat, o: nat, first: nat)
    requires Decomposes(f, u, k) && order <= o <= k && first in f[o]
    requires forall i: nat :: i < first ==> i !in f[o]
    requires forall o': nat | order <= o' < o :: f[o'] == {}
    ensures FirstFit(u, k, order, Down(first, o - order))
    ensures Whole(u, order, Down(first, o - order))
  {
    assert Canonical(u, k, o, first);
    forall o': nat, i': nat | order <= o' < o
      ensures !Canonical(u, k, o', i')
    {
      assert i' !in f[o'];
    }
    assert LowestOfSmallest(u, k, order, o, first);
    WholeInside(u, order, Down(first, o - order), o);
  }

  /** The three bit updates of a split, taken together. */
  lemma SplitUpdates(f: seq<set<nat>>, g: seq<set<nat>>, h: seq<set<nat>>, h': seq<set<nat>>, o: nat, i: nat)
    requires 0 < o < |f| == |g| == |h|
    requires g == f[o := f[o] - {i}]
    requires h == g[o - 1 := g[o - 1] + {2 * i}]
    requires h' == h[o - 1 := h[o - 1] + {2 * i + 1}]
    ensures h' == f[o := f[o] - {i}][o - 1 := f[o - 1] + {2 * i, 2 * i + 1}]
  {
    assert f[o - 1] + {2 * i} + {2 * i + 1} == f[o - 1] + {2 * i, 2 * i + 1};
  }

  predicate Doubles(s: seq<nat>, o: nat)
    requires o + 1 < |s|
  {
    s[o] == 2 * s[o + 1]
  }

  lemma ZeroWords(words: seq<bv32>)
    requires forall i :: 0 <= i < |words| ==> words[i] == 0
    ensures Denotes(words, {})
  {
    forall b: nat
      ensures !InWords(words, b)
    {
      if b < 32 * |words| { ZeroHasNoBits(b % 32); }
    }
  }

  /** A pool of whole pages of the largest order decomposes into just those. */
  lemma OnlyTopBlocks(f: seq<set<nat>>, u: set<nat>, k: nat)
    requires |f| == k + 1 && forall o: nat | o < k :: f[o] == {}
    requires forall p: nat :: p in u <==> Up(p, k) in f[k]
    ensures Decomposes(f, u, k)
  {
    forall o: nat, i: nat | o <= k
      ensures i in f[o] <==> Canonical(u, k, o, i)
    {
      var p := Down(i, o);
      assert InBlock(p, o, i);
      if o < k && Whole(u, o, i) {
        forall q: nat | InBlock(q, o + 1, i / 2)
          ensures q in u
        {
          SameAbove(p, q, o + 1, k);
        }
      }
    }
  }

  /** Some block of `blocks` contains page `p`. */
  ghost predicate Covered(blocks: set<Block>, p: nat) {
    exists b :: b in blocks && InBlock(p, b.order, b.idx)
  }

  ghost predicate Overlap(a: Block, b: Block) {
    exists p: nat :: InBlock(p, a.order, a.idx) && InBlock(p, b.order, b.idx)
  }

  /** Bitmaps of doubling size, all clear but the last, which is `topMap`. */
  method InitialMaps(maxOrder: nat, topPages: nat, topMap: seq<bv32>)
      returns (maps: seq<array<bv32>>, sizes: seq<nat>, ghost sets: seq<set<nat>>)
    requires topPages <= 32 * |topMap|
    ensures |maps| == |sizes| == |sets| == maxOrder + 1
    ensures forall o :: 0 <= o <= maxOrder ==> fresh(maps[o]) && sizes[o] <= 32 * maps[o].Length
    ensures forall o :: 0 <= o <= maxOrder ==> Denotes(maps[o][..], sets[o])
    ensures forall o, o' :: 0 <= o < o' <= maxOrder ==> maps[o] != maps[o']
    ensures forall o: nat :: o < maxOrder ==> Doubles(sizes, o)
    ensures sizes[maxOrder] == topPages && sets[maxOrder] == Bits(topMap)
    ensures forall o :: 0 <= o < maxOrder ==> sets[o] == {}
  {
    var top := new bv32[|topMap|](i requires 0 <= i < |topMap| => topMap[i]);
    assert top[..] == topMap;
    DenotesIsBits(topMap, Bits(topMap));
    maps, sizes, sets := [top], [topPages], [Bits(topMap)];
    for k := 0 to maxOrder
      invariant |maps| == |sizes| == |sets| == k + 1
      invariant forall o :: 0 <= o <= k ==> fresh(maps[o]) && sizes[o] <= 32 * maps[o].Length
      invariant forall o :: 0 <= o <= k ==> Denotes(maps[o][..], sets[o])
      invariant forall o, o' :: 0 <= o < o' <= k ==> maps[o] != maps[o']
      invariant forall o: nat :: o < k ==> Doubles(sizes, o)
      invariant sizes[k] == topPages && sets[k] == Bits(topMap)
      invariant forall o :: 0 <= o < k ==> sets[o] == {}
    {
      var n := 2 * sizes[0];
      var zeros := new bv32[(n + 31) / 32](_ => 0);
      ZeroWords(zeros[..]);
      var sizes' := [n] + sizes;
      forall o: nat | o < k + 1
        ensures Doubles(sizes', o)
      {
        if o > 0 { assert Doubles(sizes, o - 1); }
      }
      maps, sizes, sets := [zeros] + maps, sizes', [{}] + sets;
    }
  }

  class PageAllocator {
    const base: nat
    const maxOrder: nat
    /** `page_bitmap` and `page_bitmap_sz`, by order */
    const bitmap: seq<array<bv32>>
    const size: seq<nat>
    /** All pages the allocator manages, those not allocated, and the live blocks. */
    ghost const pool: set<nat>
    ghost var free: set<nat>
    ghost var live: set<Block>
    /** The free indices that the bitmaps denote, by order. */
    ghost var bits: seq<set<nat>>

    /** The initial bitmaps: only pages of the largest order are free, those in
        `topMap`. */
    constructor (base: nat, maxOrder: nat, topPages: nat, topMap: seq<bv32>)
      requires Aligned(base, maxOrder + MIN_PAGE_SHIFT)
      requires topPages <= 32 * |topMap| && forall i :: i in Bits(topMap) ==> i < topPages
      ensures Valid() && live == {} && fresh(bitmap)
      ensures this.base == base && this.maxOrder == maxOrder && size[maxOrder] == topPages
      ensures forall p: nat :: p in pool <==> Up(p, maxOrder) in Bits(topMap)
      ensures bits[maxOrder] == Bits(topMap) && forall o: nat | o < maxOrder :: bits[o] == {}
    {
      var maps, sizes;
      ghost var sets;
      maps, sizes, sets := InitialMaps(maxOrder, topPages, topMap);
      this.base, this.maxOrder, this.bitmap, this.size := base, maxOrder, maps, sizes;
      ghost var all := set p: nat | p < sizes[0] && Up(p, maxOrder) in Bits(topMap);
      pool, free, live, bits := all, all, {}, sets;
      new;
      assert Mapped() by {
        forall o | 0 <= o < this.maxOrder ensures Halves(o) { assert Doubles(sizes, o); }
      }
      forall p: nat | Up(p, maxOrder) in Bits(topMap)
        ensures p < size[0]
      {
        DownInRange(p, maxOrder);
      }
      OnlyTopBlocks(bits, free, maxOrder);
    }

    lemma {:induction false} DownInRange(p: nat, o: nat)
      requires |size| == maxOrder + 1 && o <= maxOrder && Up(p, o) < size[o]
      requires forall o' :: 0 <= o' < maxOrder ==> Halves(o')
      ensures p < size[0]
    {
      if o > 0 {
        assert Halves(o - 1);
        DownInRange(p, o - 1);
      }
    }

    /** There are twice as many pages of an order as of the next one. */
    ghost predicate Halves(o: nat)
      requires |size| == maxOrder + 1 && o < maxOrder
    {
      size[o] == 2 * size[o + 1]
    }

    ghost predicate Shape() {
      && |bitmap| == |size| == maxOrder + 1
      && Aligned(base, maxOrder + MIN_PAGE_SHIFT)
      && (forall o :: 0 <= o < maxOrder ==> Halves(o))
      && (forall o :: 0 <= o <= maxOrder ==> size[o] <= 32 * bitmap[o].Length)
      && (forall o, o' :: 0 <= o < o' <= maxOrder ==> bitmap[o] != bitmap[o'])
      && (forall p: nat :: p in pool ==> p < size[0])
    }

    /** Free pages and live blocks tile the pool. */
    ghost predicate Tiles()
      reads this
    {
      && (forall p: nat :: p in free <==> p in pool && forall b :: b in live ==> !InBlock(p, b.order, b.idx))
      && (forall b :: b in live ==> b.order <= maxOrder && Whole(pool, b.order, b.idx))
      && (forall a, b :: a in live && b in live && a != b ==> !Overlap(a, b))
    }

    /** Every bitmap denotes its `bits`. */
    ghost predicate Mapped()
      reads this, bitmap
    {
      && Shape() && |bits| == maxOrder + 1
      && (forall o :: 0 <= o <= maxOrder ==> Denotes(bitmap[o][..], bits[o]))
    }

    /** The words of the bitmaps, by order. */
    ghost function Words(): (ws: seq<seq<bv32>>)
      reads this, bitmap
      ensures |ws| == |bitmap| && forall o :: 0 <= o < |bitmap| ==> ws[o] == bitmap[o][..]
    {
      seq(|bitmap|, o requires 0 <= o < |bitmap| reads this, bitmap => bitmap[o][..])
    }

    ghost predicate Valid()
      reads this, bitmap
    {
      Mapped() && Decomposes(bits, free, maxOrder) && Tiles()
    }

    lemma {:induction false} UpInRange(p: nat, o: nat)
      requires Shape() && p < size[0] && o <= maxOrder
      ensures Up(p, o) < size[o]
    {
      if o > 0 {
        UpInRange(p, o - 1);
        assert Halves(o - 1);
      }
    }

    /** Every block of pool pages has an index inside its bitmap. */
    lemma WholeInRange(u: set<nat>, o: nat, i: nat)
      requires Shape() && o <= maxOrder && Whole(u, o, i) && u <= pool
      ensures i < size[o]
    {
      var p := Down(i, o);
      assert InBlock(p, o, i);
      UpInRange(p, o);
    }

    /** Larger alignments of the base include the smaller ones. */
    lemma BaseAligned(n: nat)
      requires Shape() && n <= maxOrder + MIN_PAGE_SHIFT
      ensures Aligned(base, n)
    {
      var big := Pow2(maxOrder + MIN_PAGE_SHIFT);
      var m := Pow2Multiple(n, maxOrder + MIN_PAGE_SHIFT);
      var q := Quotient(base, big);
      assert base == q * big;
      assert q * (m * Pow2(n)) == (q * m) * Pow2(n);
      DivModUnique(base, Pow2(n), q * m, 0);
    }

    /** `bitmap_set_bit(page_bitmap[order], i)` */
    method SetFree(order: nat, i: nat)
      requires Mapped() && order <= maxOrder && i < size[order]
      modifies this`bits, bitmap[order]
      ensures Mapped() && bits == old(bits)[order := old(bits)[order] + {i}]
    {
      DenotesIsBits(bitmap[order][..], bits[order]);
      BitmapSetBit(bitmap[order], i);
      bits := bits[order := bits[order] + {i}];
      DenotesIsBits(bitmap[order][..], bits[order]);
    }

    /** `bitmap_clear_bit(page_bitmap[order], i)` */
    method ClearFree(order: nat, i: nat)
      requires Mapped() && order <= maxOrder && i < size[order]
      modifies this`bits, bitmap[order]
      ensures Mapped() && bits == old(bits)[order := old(bits)[order] - {i}]
    {
      DenotesIsBits(bitmap[order][..], bits[order]);
      BitmapClearBit(bitmap[order], i);
      bits := bits[order := bits[order] - {i}];
      DenotesIsBits(bitmap[order][..], bits[order]);
    }

    /** `bitmap_get_bit(page_bitmap[order], i)` */
    method TestFree(order: nat, i: nat) returns (b: bool)
      requires Mapped() && order <= maxOrder && i < size[order]
      ensures b <==> i in bits[order]
    {
      DenotesIsBits(bitmap[order][..], bits[order]);
      b := BitmapGetBit(bitmap[order], i) != 0;
    }

    /** `find_first_bit(page_bitmap[order], page_bitmap_sz[order])` */
    method FirstFree(order: nat) returns (i: nat)
      requires Mapped() && order <= maxOrder
      ensures IsFirst(bits[order], size[order], i)
    {
      DenotesIsBits(bitmap[order][..], bits[order]);
      i := FindFirstBit(bitmap[order], size[order]);
    }

    /** `find_first_free_page` */
    method FindFirstFreePage(order: nat) returns (r: int)
      requires Mapped() && order <= maxOrder
      ensures -1 <= r < size[order]
      ensures r == -1 ==> forall i: nat :: i < size[order] ==> i !in bits[order]
      ensures r >= 0 ==> IsFirst(bits[order], size[order], r)
    {
      var idx := FirstFree(order);
      if idx >= size[order] {
        return -1;
      }
      r := idx;
    }

    /** `split_first_free_page`: `i` is the first free page of that order. */
    method SplitFirstFreePage(order: nat, ghost i: nat)
      requires Mapped() && 0 < order <= maxOrder
      requires i < size[order] && IsFirst(bits[order], size[order], i)
      modifies this`bits, bitmap[order], bitmap[order - 1]
      ensures Mapped()
      ensures bits == old(bits)[order := old(bits)[order] - {i}]
                                   [order - 1 := old(bits)[order - 1] + {2 * i, 2 * i + 1}]
    {
      assert Halves(order - 1);
      var idx := FirstFree(order);
      assert idx == i;
      ghost var f := bits;
      ClearFree(order, idx);
      ghost var g := bits;
      SetFree(order - 1, 2 * idx);
      ghost var h := bits;
      SetFree(order - 1, 2 * idx + 1);
      SplitUpdates(f, g, h, bits, order, i);
    }

    /** The loop of `alloc_pages` that skips orders without a free page. */
    method SkipEmptyOrders(order: nat) returns (o: nat, ghost first: nat)
      requires Mapped() && Decomposes(bits, free, maxOrder) && free <= pool
      ensures order <= o
      ensures o <= maxOrder ==> first < size[o] && IsFirst(bits[o], size[o], first)
      ensures forall o': nat | order <= o' < o && o' <= maxOrder :: bits[o'] == {}
    {
      o, first := order, 0;
      while o <= maxOrder
        invariant order <= o
        invariant forall o': nat | order <= o' < o && o' <= maxOrder :: bits[o'] == {}
      {
        var idx := FindFirstFreePage(o);
        if idx >= 0 {
          first := idx;
          return;
        }
        forall i: nat
          ensures i !in bits[o]
        {
          if i in bits[o] { WholeInRange(free, o, i); }
        }
        o := o + 1;
      }
    }

    /** The loop of `alloc_pages` that splits the first free page of order `top`
        down to `order`. */
    method SplitDown(order: nat, top: nat, ghost first: nat)
      requires Mapped() && order <= top <= maxOrder && InHand(bits, free, maxOrder, top, first)
      requires first < size[top] && IsFirst(bits[top], size[top], first)
      requires forall o: nat | order <= o < top :: bits[o] == {}
      modifies this`bits, bitmap
      ensures Mapped()
      ensures var idx := Down(first, top - order);
              && idx < size[order] && IsFirst(bits[order], size[order], idx)
              && InHand(bits, free, maxOrder, order, idx)
    {
      var o := top;
      ghost var idx := first;
      while o > order
        invariant Mapped() && order <= o <= top && idx == Down(first, top - o)
        invariant idx < size[o] && IsFirst(bits[o], size[o], idx)
        invariant InHand(bits, free, maxOrder, o, idx)
        invariant forall o': nat | order <= o' < o :: bits[o'] == {}
      {
        SplitInHand(bits, free, maxOrder, o, idx);
        DownDoubles(first, top - o);
        assert top - o + 1 == top - (o - 1);
        assert Halves(o - 1);
        SplitFirstFreePage(o, idx);
        o, idx := o - 1, 2 * idx;
      }
    }

    /** `alloc_pages` */
    method AllocPages(order: nat) returns (r: Option<nat>)
      requires Valid()
      modifies this, bitmap
      ensures Valid()
      ensures r.None? <==> forall i: nat :: !(order <= maxOrder && Whole(old(free), order, i))
      ensures r.None? ==> bits == old(bits) && free == old(free) && live == old(live)
      ensures r.Some? ==> base <= r.value && Allocated(order, r.value, old(free), old(live))
    {
      var o;
      ghost var first;
      o, first := SkipEmptyOrders(order);
      if o > maxOrder {
        NoneLargeEnough(bits, free, maxOrder, order);
        return None;
      }
      ghost var idx := Down(first, o - order);
      FirstFitIn(bits, free, maxOrder, order, o, first);
      TakeInHand(bits, free, maxOrder, o, first);
      SplitDown(order, o, first);
      var pageIdx := FirstFree(order);
      assert pageIdx == idx;
      ClearFree(order, pageIdx);
      RecordAlloc(order, pageIdx);
      AddrIdxInverse(base, pageIdx, order);
      r := Some(PageIdxToAddr(base, pageIdx, order));
    }

    /** What a successful allocation at `addr` did. */
    ghost predicate Allocated(order: nat, addr: nat, oldFree: set<nat>, oldLive: set<Block>)
      requires base <= addr
      reads this
    {
      var idx := AddrToPageIdx(base, addr, order);
      && addr == PageIdxToAddr(base, idx, order)
      && FirstFit(oldFree, maxOrder, order, idx)
      && Whole(oldFree, order, idx)
      && free == Rest(oldFree, order, idx)
      && Block(order, idx) !in oldLive
      && live == oldLive + {Block(order, idx)}
      && forall b :: b in oldLive ==> !Overlap(b, Block(order, idx))
    }

    /** The ghost account of a new live block. */
    ghost method RecordAlloc(order: nat, idx: nat)
      requires Mapped() && Tiles() && order <= maxOrder
      requires Whole(free, order, idx) && Decomposes(bits, Rest(free, order, idx), maxOrder)
      modifies this
      ensures Valid() && free == Rest(old(free), order, idx) && live == old(live) + {Block(order, idx)}
      ensures Block(order, idx) !in old(live)
      ensures forall b :: b in old(live) ==> !Overlap(b, Block(order, idx))
    {
      assert InBlock(Down(idx, order), order, idx);
      free, live := Rest(free, order, idx), live + {Block(order, idx)};
    }

    /** `addr` is the address of a live block of that order. */
    ghost predicate IsLive(addr: int, order: nat)
      reads this
    {
      && base <= addr
      && addr == PageIdxToAddr(base, AddrToPageIdx(base, addr, order), order)
      && Block(order, AddrToPageIdx(base, addr, order)) in live
    }

    /** `free_pages` */
    method FreePages(addr: nat, order: nat)
      requires Valid() && IsLive(addr, order)
      modifies this, bitmap
      ensures Valid()
      ensures var idx := AddrToPageIdx(base, addr, order);
              && live == old(live) - {Block(order, idx)}
              && Whole(free, order, idx)
              && old(free) == Rest(free, order, idx)
    {
      ghost var block := Block(order, AddrToPageIdx(base, addr, order));
      ghost var u := GivenBack(block);
      GivenBackTiles(block);
      Coalesce(addr, order, block.idx, u);
      free, live := u, live - {block};
    }

    /** The loop of `free_pages`, for a block `(order, idx)` missing from the bitmaps. */
    method Coalesce(addr: nat, order: nat, ghost idx: nat, ghost u: set<nat>)
      requires Mapped() && u <= pool && order <= maxOrder
      requires addr == PageIdxToAddr(base, idx, order) && Missing(bits, u, maxOrder, order, idx)
      modifies this`bits, bitmap
      ensures Mapped() && Decomposes(bits, u, maxOrder)
    {
      var a, o := addr, order;
      ghost var i := idx;
      while o < maxOrder
        invariant Mapped() && o <= maxOrder && a == PageIdxToAddr(base, i, o) && Missing(bits, u, maxOrder, o, i)
      {
        AddrIdxInverse(base, i, o);
        WholeInRange(u, o, i);
        assert Halves(o);
        var pageIdx := AddrToPageIdx(base, a, o);
        var buddyIdx := BuddyOf(pageIdx);
        var buddyFree := TestFree(o, buddyIdx);
        if buddyFree {
          MergeMissing(bits, u, maxOrder, o, i);
          ClearFree(o, buddyIdx);
          BaseAligned(o + 1 + MIN_PAGE_SHIFT);
          MaskIsParent(base, i, o);
          a := AlignDown(a, o + 1 + MIN_PAGE_SHIFT);
          i := i / 2;
        } else {
          PlaceMissing(bits, u, maxOrder, o, i);
          SetFree(o, pageIdx);
          return;
        }
        o := o + 1;
      }
      AddrIdxInverse(base, i, o);
      WholeInRange(u, o, i);
      PlaceMissing(bits, u, maxOrder, o, i);
      SetFree(o, AddrToPageIdx(base, a, o));
    }

    /** The unallocated pages once `block` is given back. */
    ghost function GivenBack(block: Block): set<nat>
      reads this
    {
      set p | p in pool && (p in free || InBlock(p, block.order, block.idx))
    }

    lemma GivenBackTiles(block: Block)
      requires Tiles() && block in live
      ensures Whole(GivenBack(block), block.order, block.idx)
      ensures Rest(GivenBack(block), block.order, block.idx) == free
      ensures forall p: nat :: p in GivenBack(block) <==>
        p in pool && forall b :: b in live - {block} ==> !InBlock(p, b.order, b.idx)
    {
      forall p: nat, b: Block | b in live && b != block && InBlock(p, b.order, b.idx)
        ensures !InBlock(p, block.order, block.idx)
      {
        assert !Overlap(b, block);
      }
    }
  }

  /** Each page of the pool is covered exactly once: by one live block or by one
      free bit. */
  lemma EveryPageCoveredOnce(a: PageAllocator, p: nat)
    requires a.Valid() && p in a.pool
    ensures Covered(a.live, p) <==> forall o: nat | o <= a.maxOrder :: Up(p, o) !in a.bits[o]
    ensures forall b, b' | b in a.live && b' in a.live ::
      InBlock(p, b.order, b.idx) && InBlock(p, b'.order, b'.idx) ==> b == b'
    ensures forall o: nat, o': nat | o <= a.maxOrder && o' <= a.maxOrder ::
      Up(p, o) in a.bits[o] && Up(p, o') in a.bits[o'] ==> o == o'
  {
    if p in a.free {
      CanonicalTiles(a.free, a.maxOrder, p);
      var o: nat :| Canonical(a.free, a.maxOrder, o, Up(p, o));
      assert Up(p, o) in a.bits[o];
    } else {
      forall o: nat | o <= a.maxOrder
        ensures Up(p, o) !in a.bits[o]
      {
        assert InBlock(p, o, Up(p, o));
      }
    }
    forall b, b' | b in a.live && b' in a.live && InBlock(p, b.order, b.idx) && InBlock(p, b'.order, b'.idx)
      ensures b == b'
    {
      assert Overlap(b, b');
    }
  }

  /** `Up` divides by the block size. */
  lemma {:induction false} UpIsQuotient(p: nat, o: nat)
    ensures Up(p, o) == Quotient(p, Pow2(o))
  {
    if o > 0 {
      UpIsQuotient(p, o - 1);
      HalfQuotient(p, Pow2(o - 1));
    }
  }

  lemma HalfQuotient(p: nat, d: nat)
    requires d > 0
    ensures Quotient(p, d) / 2 == Quotient(p, 2 * d)
  {
    var q, r := Quotient(p, d), Remainder(p, d);
    var h, odd := q / 2, q % 2;
    assert q * d == h * (2 * d) + odd * d by { assert q == 2 * h + odd; }
    assert odd * d <= d by { assert odd == 0 || odd == 1; }
    DivModUnique(p, 2 * d, h, odd * d + r);
  }

  /** Byte `x` is in the memory of block `(order, idx)` exactly when its minimum
      page is in the block. */
  lemma BytesOfBlock(base: nat, order: nat, idx: nat, x: nat)
    requires base <= x
    ensures PageIdxToAddr(base, idx, order) <= x < PageIdxToAddr(base, idx, order) + Pow2(order + MIN_PAGE_SHIFT)
            <==> InBlock(Quotient(x - base, 256), order, idx)
  {
    PageSizes();
    var p, r := Quotient(x - base, 256), Remainder(x - base, 256);
    var d := Pow2(order);
    UpIsQuotient(p, order);
    Pow2Sum(order);
    var q, s := Quotient(p, d), Remainder(p, d);
    assert x - base == (q * d + s) * 256 + r == q * (256 * d) + (s * 256 + r);
    assert s * 256 + r < 256 * d;
    DivModUnique(x - base, 256 * d, q, s * 256 + r);
    if idx * (256 * d) <= x - base < idx * (256 * d) + 256 * d {
      DivModUnique(x - base, 256 * d, idx, x - base - idx * (256 * d));
    }
  }

  lemma {:induction false} Pow2Sum(n: nat)
    ensures Pow2(n + MIN_PAGE_SHIFT) == 256 * Pow2(n)
  {
    if n == 0 { PageSizes(); } else { Pow2Sum(n - 1); }
  }

  /** The memory of two live blocks does not overlap. */
  lemma LiveBlocksDisjoint(a: PageAllocator, b: Block, b': Block, x: nat)
    requires a.Valid() && b in a.live && b' in a.live && a.base <= x
    requires var p := PageIdxToAddr(a.base, b.idx, b.order); p <= x < p + Pow2(b.order + MIN_PAGE_SHIFT)
    requires var p := PageIdxToAddr(a.base, b'.idx, b'.order); p <= x < p + Pow2(b'.order + MIN_PAGE_SHIFT)
    ensures b == b'
  {
    BytesOfBlock(a.base, b.order, b.idx, x);
    BytesOfBlock(a.base, b'.order, b'.idx, x);
    assert Overlap(b, b');
  }

  /** The bitmaps are a function of the pages that are allocated, whatever the
      history: two allocators over one pool whose live blocks cover the same
      pages have identical bitmaps, word for word. */
  lemma SameLiveSameBitmaps(a: PageAllocator, b: PageAllocator)
    requires a.Valid() && b.Valid()
    requires a.pool == b.pool && a.maxOrder == b.maxOrder
    requires forall o :: 0 <= o <= a.maxOrder ==> a.bitmap[o].Length == b.bitmap[o].Length
    requires forall p: nat :: Covered(a.live, p) <==> Covered(b.live, p)
    ensures a.bits == b.bits && a.Words() == b.Words()
  {
    forall p: nat
      ensures p in a.free <==> p in b.free
    {
      assert p in a.free <==> p in a.pool && !Covered(a.live, p);
      assert p in b.free <==> p in b.pool && !Covered(b.live, p);
    }
    DecompositionUnique(a.bits, b.bits, a.free, a.maxOrder);
    SameBitsSameWords(a.Words(), b.Words(), a.bits);
  }

  lemma SameBitsSameWords(ws: seq<seq<bv32>>, ws': seq<seq<bv32>>, bits: seq<set<nat>>)
    requires |ws| == |ws'| == |bits| && forall o :: 0 <= o < |ws| ==> |ws[o]| == |ws'[o]|
    requires forall o :: 0 <= o < |ws| ==> Denotes(ws[o], bits[o]) && Denotes(ws'[o], bits[o])
    ensures ws == ws'
  {
    forall o | 0 <= o < |ws|
      ensures ws[o] == ws'[o]
    {
      WordsDetermined(ws[o], ws'[o], bits[o]);
    }
  }

  /** With the same pages free as in an earlier state, all words are what they were. */
  lemma Restored(a: PageAllocator, bits: seq<set<nat>>, words: seq<seq<bv32>>)
    requires a.Valid() && Decomposes(bits, a.free, a.maxOrder) && |words| == |bits| == a.maxOrder + 1
    requires forall o :: 0 <= o <= a.maxOrder ==> |words[o]| == a.bitmap[o].Length
    requires forall o :: 0 <= o <= a.maxOrder ==> Denotes(words[o], bits[o])
    ensures a.bits == bits && a.Words() == words
  {
    DecompositionUnique(a.bits, bits, a.free, a.maxOrder);
    SameBitsSameWords(a.Words(), words, bits);
  }

  /** No two free bits are buddies, below the largest order. */
  lemma FullyCoalesced(a: PageAllocator, o: nat, i: nat)
    requires a.Valid() && o < a.maxOrder && i in a.bits[o]
    ensures BuddyOf(i) !in a.bits[o]
  {
    NoFreeBuddies(a.free, a.maxOrder, o, i);
  }

  /** Allocate, or free the `k`th block still held. */
  datatype PageOp = Alloc(order: nat) | Free(k: nat)

  /** `held` are the blocks allocated since the live ones were `start`. */
  ghost predicate HeldSince(held: seq<Block>, start: set<Block>, live: set<Block>) {
    && NoDup(held)
    && (forall b :: b in live <==> b in start || b in held)
    && (forall b :: b in held ==> b !in start)
  }

  method RunPageOp(a: PageAllocator, op: PageOp, held: seq<Block>, ghost start: set<Block>)
    returns (held': seq<Block>)
    requires a.Valid() && HeldSince(held, start, a.live)
    modifies a, a.bitmap
    ensures a.Valid() && HeldSince(held', start, a.live)
  {
    held' := held;
    match op
    case Alloc(order) =>
      var r := a.AllocPages(order);
      if r.Some? {
        held' := held + [Block(order, AddrToPageIdx(a.base, r.value, order))];
      }
    case Free(k) =>
      if k < |held| {
        var b := held[k];
        AddrIdxInverse(a.base, b.idx, b.order);
        a.FreePages(PageIdxToAddr(a.base, b.idx, b.order), b.order);
        held' := held[..k] + held[k + 1..];
      }
  }

  /** Any run of allocations and frees keeps the allocator valid and its live
      blocks those still held, so that once all are freed, in whatever order, the
      bitmaps are back to what they were. */
  method RunPages(a: PageAllocator, ops: seq<PageOp>) returns (held: seq<Block>)
    requires a.Valid()
    modifies a, a.bitmap
    ensures a.Valid() && NoDup(held)
    ensures forall b :: b in a.live <==> b in old(a.live) || b in held
    ensures held == [] ==> a.bits == old(a.bits) && a.Words() == old(a.Words())
  {
    ghost var bits0, free0, live0, words0 := a.bits, a.free, a.live, a.Words();
    held := [];
    for n := 0 to |ops|
      invariant a.Valid() && HeldSince(held, live0, a.live)
    {
      held := RunPageOp(a, ops[n], held, live0);
    }
    if held == [] {
      assert a.live == live0;
      assert a.free == free0;
      Restored(a, bits0, words0);
    }
  }

  /** The kernel's pool at boot: 16 pages of 2 KB, of which the map 0x7fff lists
      the first fifteen (kernel/mm/page.c:19-23). */
  method BootAllocator(base: nat) returns (a: PageAllocator)
    requires Aligned(base, 3 + MIN_PAGE_SHIFT)
    ensures fresh(a) && fresh(a.bitmap) && a.Valid() && a.live == {}
    ensures a.maxOrder == 3 && a.size[3] == 16 && a.base == base
    ensures forall p: nat :: p in a.pool <==> p < 15 * 8
  {
    BootMap();
    a := new PageAllocator(base, 3, 16, [0x7fff]);
    assert forall p: nat :: Up(p, 3) == p / 2 / 2 / 2 by {
      forall p: nat ensures Up(p, 3) == p / 2 / 2 / 2 {
        assert Up(p, 1) == p / 2;
        assert Up(p, 2) == p / 2 / 2;
      }
    }
  }

  lemma BootMap()
    ensures forall i: nat :: i in Bits([0x7fff]) <==> i < 15
  {
    var w: bv32 := 0x7fff;
    assert [w][0] == w;
    forall i: nat | i < 32
      ensures i in Bits([w]) <==> i < 15
    {
      assert i / 32 == 0 && i % 32 == i;
      BootWordBit(i);
    }
  }

  lemma BootWordBit(i: nat)
    requires i < 32
    ensures Bit(0x7fff, i) <==> i < 15
  {
    var w: bv32 := 0x7fff;
    if i < 16 {
      assert Bit(w, 0) && Bit(w, 1) && Bit(w, 2) && Bit(w, 3) && Bit(w, 4) && Bit(w, 5) && Bit(w, 6) && Bit(w, 7);
      assert Bit(w, 8) && Bit(w, 9) && Bit(w, 10) && Bit(w, 11);
      assert Bit(w, 12) && Bit(w, 13) && Bit(w, 14) && !Bit(w, 15);
    } else {
      assert !Bit(w, 16) && !Bit(w, 17) && !Bit(w, 18) && !Bit(w, 19);
      assert !Bit(w, 20) && !Bit(w, 21) && !Bit(w, 22) && !Bit(w, 23);
      assert !Bit(w, 24) && !Bit(w, 25) && !Bit(w, 26) && !Bit(w, 27);
      assert !Bit(w, 28) && !Bit(w, 29) && !Bit(w, 30) && !Bit(w, 31);
    }
  }
}
