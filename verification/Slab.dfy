/**
 The slab allocator (kernel/mm/slab.c) on top of the page allocator.

 A slab is one 256-byte page: a 16-byte header (the object bitmap, the count of
 free objects, the list node) and then the objects.
 */
module SlabAllocation {
  import opened Arithmetic
  import opened Options
  import opened Sequences
  import opened Bitops
  import opened Buddy
  import opened PageAllocation

  const CACHE_PAGE_SIZE: nat := 256
  /** `sizeof(struct slab)` on a 32-bit machine */
  const SLAB_HEADER: nat := 16

  /** `OBJECTS_PER_SLAB` */
  function ObjectsPerSlab(objsize: nat): (n: nat)
    requires objsize > 0
  {
    (CACHE_PAGE_SIZE - SLAB_HEADER) / objsize
  }

  /** The object sizes that `kmem_cache_create` accepts. */
  predicate Accepted(objsize: nat) {
    8 <= objsize <= (CACHE_PAGE_SIZE - SLAB_HEADER) / 2
  }

  /** The address of object `bit` of the slab at `slab`. */
  function ObjectAt(slab: int, bit: nat, objsize: nat): (p: int)
    ensures slab + SLAB_HEADER <= p
  {
    slab + SLAB_HEADER + bit * objsize
  }

  /** `get_slab_from_obj`: the address rounded down to a page. */
  function SlabOf(obj: int): int {
    obj - obj % 256
  }

  /** `obj_index_in_slab` */
  function IndexOf(obj: int, objsize: nat): int
    requires objsize > 0
  {
    (obj % 256 - SLAB_HEADER) / objsize
  }

  lemma ObjectsFit(objsize: nat, bit: nat)
    requires Accepted(objsize) && bit < ObjectsPerSlab(objsize)
    ensures SLAB_HEADER + bit * objsize + objsize <= CACHE_PAGE_SIZE
    ensures 2 <= ObjectsPerSlab(objsize) <= 30
  {
    var n := ObjectsPerSlab(objsize);
    assert n * objsize + 240 % objsize == 240;
    MulLe(bit + 1, n, objsize);
    MulLe(8, objsize, n);
    assert n == 0 || n == 1 || n >= 2;
  }

  lemma MulLe(a: int, b: nat, c: nat)
    requires a <= b
    ensures a * c <= b * c
  {
  }

  /** From the address alone, `kmem_cache_free` recovers exactly the slab and the
      bit that `kmem_cache_alloc` chose. */
  lemma AddressRoundTrip(slab: int, bit: nat, objsize: nat)
    requires Accepted(objsize) && bit < ObjectsPerSlab(objsize) && slab % 256 == 0
    ensures SlabOf(ObjectAt(slab, bit, objsize)) == slab
    ensures IndexOf(ObjectAt(slab, bit, objsize), objsize) == bit
  {
    ObjectsFit(objsize, bit);
    var off := SLAB_HEADER + bit * objsize;
    PageOffset(slab, off);
    DivModUnique(bit * objsize, objsize, bit, 0);
  }

  lemma PageOffset(slab: int, off: nat)
    requires slab % 256 == 0 && off < 256
    ensures (slab + off) % 256 == off
  {
  }

  /** Different objects of one slab do not overlap. */
  lemma ObjectsDisjointInSlab(slab: int, bit: nat, bit': nat, objsize: nat)
    requires bit < bit'
    ensures ObjectAt(slab, bit, objsize) + objsize <= ObjectAt(slab, bit', objsize)
  {
    MulLe(bit + 1, bit', objsize);
  }

  /** The slab lists of a cache and the counters in the slab headers. */
  datatype Lists = Lists(free: seq<int>, partial: seq<int>, full: seq<int>, count: map<int, int>)
  {
    function All(): seq<int> {
      free + partial + full
    }
  }

  /** Every slab is on exactly one list, the one its count of free objects dictates. */
  ghost predicate ListsOk(l: Lists, objnum: nat) {
    && NoDup(l.free) && NoDup(l.partial) && NoDup(l.full)
    && (forall a :: a in l.free ==> a in l.count && l.count[a] == objnum)
    && (forall a :: a in l.partial ==> a in l.count && 0 < l.count[a] < objnum)
    && (forall a :: a in l.full ==> a in l.count && l.count[a] == 0)
    && (forall a :: a in l.count ==> a in l.free || a in l.partial || a in l.full)
  }

  /** The free objects and the set bits of each slab add up. */
  ghost predicate CountsOk(count: map<int, int>, used: map<int, set<nat>>, objnum: nat) {
    && used.Keys == count.Keys
    && (forall a :: a in count ==> count[a] + |used[a]| == objnum)
    && BitsBelow(used, objnum)
  }

  // ----- what the list operations do -----

  lemma GrowLists(l: Lists, a: int, objnum: nat)
    requires ListsOk(l, objnum) && a !in l.count
    ensures ListsOk(l.(free := [a] + l.free, count := l.count[a := objnum]), objnum)
  {
  }

  /** Taking one object from a slab that is on the free or the partial list. */
  function TakeObject(l: Lists, a: int): Lists
    requires a in l.count
  {
    var l1 := if a in l.free then l.(free := Without(l.free, a), partial := [a] + l.partial) else l;
    var l2 := l1.(count := l.count[a := l.count[a] - 1]);
    if l2.count[a] == 0 then l2.(partial := Without(l2.partial, a), full := [a] + l2.full) else l2
  }

  lemma TakeLists(l: Lists, a: int, objnum: nat)
    requires ListsOk(l, objnum) && 2 <= objnum && (a in l.free || a in l.partial)
    ensures ListsOk(TakeObject(l, a), objnum)
    ensures TakeObject(l, a).free == if a in l.free then Without(l.free, a) else l.free
    ensures l.count[a] > 1 && a in l.free ==> TakeObject(l, a).partial == [a] + l.partial
    ensures l.count[a] == 1 ==> TakeObject(l, a).full == [a] + l.full
  {
    var l1 := if a in l.free then l.(free := Without(l.free, a), partial := [a] + l.partial) else l;
    if a in l.free { WithoutOthers(l.free, a); }
    assert a in l1.partial && NoDup(l1.partial);
    WithoutOthers(l1.partial, a);
  }

  /** Giving one object back to a slab, which is destroyed when it has no other. */
  function GiveObject(l: Lists, a: int, objnum: nat): Lists
    requires a in l.count
  {
    var n := l.count[a] + 1;
    if n == objnum then l.(partial := Without(l.partial, a), count := l.count - {a})
    else if n == 1 then l.(partial := [a] + l.partial, full := Without(l.full, a), count := l.count[a := n])
    else l.(count := l.count[a := n])
  }

  lemma GiveLists(l: Lists, a: int, objnum: nat)
    requires ListsOk(l, objnum) && 2 <= objnum && a in l.count && l.count[a] < objnum
    ensures ListsOk(GiveObject(l, a, objnum), objnum)
    ensures l.count[a] == 0 ==> GiveObject(l, a, objnum).partial == [a] + l.partial
  {
    if a in l.partial { WithoutOthers(l.partial, a); }
    if a in l.full { WithoutOthers(l.full, a); }
  }

  /** The slab that serves next: the first partial one, else the first free one, else a new one. */
  ghost predicate Preferred(a: int, l: Lists, used: map<int, set<nat>>) {
    if l.partial != [] then a == l.partial[0]
    else if l.free != [] then a == l.free[0]
    else a !in used
  }

  // ----- the objects of a cache -----

  /** The addresses of the live objects. */
  ghost function Objects(used: map<int, set<nat>>, objsize: nat): set<int> {
    set a, b | a in used && b in used[a] :: ObjectAt(a, b, objsize)
  }

  /** Every slab starts at a page boundary. */
  ghost predicate PageStarts(used: map<int, set<nat>>) {
    forall a :: a in used ==> a % 256 == 0
  }

  ghost predicate BitsBelow(used: map<int, set<nat>>, objnum: nat) {
    forall a, b :: a in used && b in used[a] ==> b < objnum
  }

  lemma ObjectIsOne(used: map<int, set<nat>>, objsize: nat, a: int, b: nat)
    requires Accepted(objsize) && PageStarts(used) && BitsBelow(used, ObjectsPerSlab(objsize))
    requires a % 256 == 0 && b < ObjectsPerSlab(objsize)
    ensures ObjectAt(a, b, objsize) in Objects(used, objsize) <==> a in used && b in used[a]
  {
    AddressRoundTrip(a, b, objsize);
    if ObjectAt(a, b, objsize) in Objects(used, objsize) {
      var a', b' :| a' in used && b' in used[a'] && ObjectAt(a, b, objsize) == ObjectAt(a', b', objsize);
      AddressRoundTrip(a', b', objsize);
    }
  }

  /** Setting one bit adds one object. */
  lemma ObjectAdded(used: map<int, set<nat>>, objsize: nat, a: int, b: nat)
    ensures Objects(used[a := (if a in used then used[a] else {}) + {b}], objsize) ==
            Objects(used, objsize) + {ObjectAt(a, b, objsize)}
  {
    var used' := used[a := (if a in used then used[a] else {}) + {b}];
    assert a in used' && b in used'[a];
    forall p | p in Objects(used, objsize)
      ensures p in Objects(used', objsize)
    {
      var a', b' :| a' in used && b' in used[a'] && p == ObjectAt(a', b', objsize);
      assert a' in used' && b' in used'[a'];
    }
  }

  /** A new object is not one of the others, and its address tells its slab. */
  lemma NewObject(used: map<int, set<nat>>, objsize: nat, a: int, b: nat, p: int)
    requires Accepted(objsize) && PageStarts(used) && BitsBelow(used, ObjectsPerSlab(objsize))
    requires a in used && b !in used[a] && b < ObjectsPerSlab(objsize) && p == ObjectAt(a, b, objsize)
    ensures p !in Objects(used, objsize) && SlabOf(p) == a
    ensures Objects(used[a := used[a] + {b}], objsize) == Objects(used, objsize) + {p}
  {
    ObjectAdded(used, objsize, a, b);
    ObjectIsOne(used, objsize, a, b);
    AddressRoundTrip(a, b, objsize);
  }

  /** Clearing one bit removes one object, and dropping an empty slab none. */
  lemma ObjectRemoved(used: map<int, set<nat>>, used': map<int, set<nat>>, objsize: nat, a: int, b: nat)
    requires Accepted(objsize) && PageStarts(used) && BitsBelow(used, ObjectsPerSlab(objsize))
    requires a in used && b in used[a]
    requires used' == used[a := used[a] - {b}] || (used[a] == {b} && used' == used - {a})
    ensures Objects(used', objsize) == Objects(used, objsize) - {ObjectAt(a, b, objsize)}
  {
    var obj := ObjectAt(a, b, objsize);
    ObjectIsOne(used', objsize, a, b);
    forall p
      ensures p in Objects(used', objsize) <==> p in Objects(used, objsize) && p != obj
    {
      if p in Objects(used', objsize) {
        var a', b' :| a' in used' && b' in used'[a'] && p == ObjectAt(a', b', objsize);
        assert a' in used && b' in used[a'];
      }
      if p in Objects(used, objsize) && p != obj {
        var a', b' :| a' in used && b' in used[a'] && p == ObjectAt(a', b', objsize);
        assert a' in used' && b' in used'[a'];
      }
    }
  }

  lemma {:induction false} FullSet(s: set<nat>, n: nat)
    requires forall b: nat :: b < n ==> b in s
    ensures |s| >= n
  {
    if n > 0 { FullSet(s - {n - 1}, n - 1); }
  }

  /** `find_first_zero_bit(slab->free_bitmap, cache->objnum)` */
  method FirstZero(w: bv32, ghost s: set<nat>, n: nat) returns (bit: nat)
    requires Denotes([w], s) && |s| < n <= 32
    ensures bit < n && bit !in s && forall b: nat :: b < bit ==> b in s
  {
    var map1 := new bv32[1](_ => w);
    assert map1[..] == [w];
    DenotesIsBits([w], s);
    assert Bits(map1[..]) == s;
    bit := FindFirstZeroBit(map1, n);
    assert map1[..] == [w] && Bits(map1[..]) == s;
    if bit == n { FullSet(s, n); }
  }

  /** The first clear bit below `n`, and the word with it set. */
  method TakeFirstZero(w: bv32, ghost s: set<nat>, n: nat) returns (bit: nat, w': bv32)
    requires Denotes([w], s) && |s| < n <= 32
    ensures bit < n && bit !in s && forall b: nat :: b < bit ==> b in s
    ensures Denotes([w'], s + {bit})
  {
    bit := FirstZero(w, s, n);
    OneBitOn(w, s, bit);
    w' := SetBit(w, bit);
  }

  /** `bitmap_clear_bit` on one word */
  method ClearOne(w: bv32, ghost s: set<nat>, bit: nat) returns (w': bv32)
    requires Denotes([w], s) && bit in s
    ensures Denotes([w'], s - {bit})
  {
    OneBitOff(w, s, bit);
    w' := ClearBit(w, bit);
  }

  ghost predicate WordsOk(words: map<int, bv32>, used: map<int, set<nat>>) {
    && words.Keys == used.Keys
    && (forall a :: a in words ==> Denotes([words[a]], used[a]))
  }

  /** A slab whose word and count change together. */
  lemma SlabChanged(count: map<int, int>, words: map<int, bv32>, used: map<int, set<nat>>, objnum: nat,
                    a: int, n: int, w: bv32, s: set<nat>)
    requires CountsOk(count, used, objnum) && WordsOk(words, used)
    requires Denotes([w], s) && n + |s| == objnum && forall b :: b in s ==> b < objnum
    ensures CountsOk(count[a := n], used[a := s], objnum) && WordsOk(words[a := w], used[a := s])
  {
  }

  lemma SlabDropped(count: map<int, int>, words: map<int, bv32>, used: map<int, set<nat>>, objnum: nat, a: int)
    requires CountsOk(count, used, objnum) && WordsOk(words, used)
    ensures CountsOk(count - {a}, used - {a}, objnum) && WordsOk(words - {a}, used - {a})
  {
  }

  ghost function BlockOf(slab: int, base: nat): Block
    requires base <= slab
  {
    Block(0, AddrToPageIdx(base, slab, 0))
  }

  ghost function BlocksOf(slabs: set<int>, base: nat): set<Block> {
    set a | a in slabs && base <= a :: BlockOf(a, base)
  }

  lemma BlocksWithNew(slabs: set<int>, base: nat, a: int, live: set<Block>)
    requires base <= a && BlockOf(a, base) !in live
    ensures (live + {BlockOf(a, base)}) - BlocksOf(slabs + {a}, base) == live - BlocksOf(slabs, base)
  {
    forall b
      ensures b in BlocksOf(slabs + {a}, base) <==> b in BlocksOf(slabs, base) || b == BlockOf(a, base)
    {
      if b == BlockOf(a, base) { assert a in slabs + {a}; }
      if b in BlocksOf(slabs, base) {
        var x :| x in slabs && base <= x && b == BlockOf(x, base);
        assert x in slabs + {a};
      }
    }
  }

  /** `struct kmem_cache` and the headers of its slabs */
  class KmemCache {
    const pages: PageAllocator
    const objsize: nat
    const objnum: nat
    var lists: Lists
    /** `free_bitmap[0]` of each slab */
    var words: map<int, bv32>
    var allocSucceed: int
    var allocFail: int
    /** The bits that each slab's word denotes. */
    ghost var used: map<int, set<nat>>

    ghost predicate Own()
      reads this
    {
      && Accepted(objsize) && objnum == ObjectsPerSlab(objsize)
      && ListsOk(lists, objnum)
      && CountsOk(lists.count, used, objnum)
      && WordsOk(words, used)
    }

    /** Every slab is a live page of the page allocator. */
    ghost predicate Backed()
      reads this, pages
    {
      forall a :: a in used ==> pages.IsLive(a, 0)
    }

    ghost predicate Valid()
      reads this, pages, pages.bitmap
    {
      pages.Valid() && Own() && Backed()
    }

    ghost function Live(): set<int>
      reads this
    {
      Objects(used, objsize)
    }

    /** The page blocks that are slabs of this cache. */
    ghost function SlabBlocks(): set<Block>
      reads this
    {
      BlocksOf(used.Keys, pages.base)
    }

    /** The live page blocks that are not. */
    ghost function OtherBlocks(): set<Block>
      reads this, pages
    {
      pages.live - SlabBlocks()
    }

    /** No slab has room, and there is no page for a new one. */
    ghost predicate Exhausted()
      reads this, pages
    {
      lists.partial == [] && lists.free == [] && forall i: nat :: !Whole(pages.free, 0, i)
    }

    /** `kmem_cache_create`, for an accepted size */
    constructor (pages: PageAllocator, objsize: nat)
      requires pages.Valid() && Accepted(objsize)
      ensures Valid() && this.pages == pages && this.objsize == objsize
      ensures Live() == {} && used == map[] && lists == Lists([], [], [], map[])
    {
      this.pages, this.objsize, this.objnum := pages, objsize, ObjectsPerSlab(objsize);
      lists := Lists([], [], [], map[]);
      words, used := map[], map[];
      allocSucceed, allocFail := 0, 0;
    }

    lemma SlabsArePages()
      requires Valid()
      ensures PageStarts(used) && 2 <= objnum <= 30
    {
      ObjectsFit(objsize, 0);
      forall a | a in used
        ensures a % 256 == 0
      {
        PageAligned(pages, a);
      }
    }

    /** `alloc_pages(0)`: a page that is not yet a slab of this cache */
    method NewPage() returns (r: Option<int>)
      requires Valid()
      modifies pages, pages.bitmap
      ensures Valid()
      ensures r.None? <==> forall i: nat :: !Whole(old(pages.free), 0, i)
      ensures r.None? ==> pages.live == old(pages.live) && pages.bits == old(pages.bits)
      ensures r.Some? ==> pages.IsLive(r.value, 0) && r.value !in used
      ensures r.Some? ==> Block(0, AddrToPageIdx(pages.base, r.value, 0)) !in old(pages.live)
      ensures r.Some? ==> pages.live == old(pages.live) + {Block(0, AddrToPageIdx(pages.base, r.value, 0))}
    {
      r := pages.AllocPages(0);
    }

    /** `kmem_cache_grow` */
    method Grow() returns (r: Option<int>)
      requires Valid()
      modifies this, pages, pages.bitmap
      ensures Valid()
      ensures r.None? <==> forall i: nat :: !Whole(old(pages.free), 0, i)
      ensures r.None? ==> unchanged(this) && pages.live == old(pages.live) && pages.bits == old(pages.bits)
      ensures r.Some? ==> pages.IsLive(r.value, 0)
      ensures r.Some? ==> Block(0, AddrToPageIdx(pages.base, r.value, 0)) !in old(pages.live)
      ensures r.Some? ==> pages.live == old(pages.live) + {Block(0, AddrToPageIdx(pages.base, r.value, 0))}
      ensures r.Some? ==> r.value !in old(used) && used == old(used)[r.value := {}]
      ensures r.Some? ==> lists == old(lists).(free := [r.value] + old(lists.free),
                                               count := old(lists.count)[r.value := objnum])
      ensures OtherBlocks() == old(OtherBlocks())
    {
      r := NewPage();
      if r.None? {
        return;
      }
      BlocksWithNew(used.Keys, pages.base, r.value, old(pages.live));
      AddSlab(r.value);
      assert used.Keys == old(used.Keys) + {r.value};
    }

    /** The new slab's header, and its place on the free list. */
    method AddSlab(slab: int)
      requires Own() && slab !in used
      modifies this
      ensures Own() && used == old(used)[slab := {}]
      ensures lists == old(lists).(free := [slab] + old(lists.free), count := old(lists.count)[slab := objnum])
      ensures allocSucceed == old(allocSucceed) && allocFail == old(allocFail)
    {
      GrowLists(lists, slab, objnum);
      NoBits();
      SlabChanged(lists.count, words, used, objnum, slab, objnum, 0, {});
      words, used := words[slab := 0], used[slab := {}];
      lists := lists.(count := lists.count[slab := objnum]);
      lists := lists.(free := [slab] + lists.free);
    }

    /** The slab that the next object comes from; may need a new page. */
    method PickSlab() returns (r: Option<int>)
      requires Valid()
      modifies this, pages, pages.bitmap
      ensures Valid()
      ensures r.None? <==> old(Exhausted())
      ensures r.None? ==> used == old(used) && lists == old(lists)
      ensures r.None? ==> pages.live == old(pages.live) && pages.bits == old(pages.bits)
      ensures r.Some? ==> r.value in lists.free || r.value in lists.partial
      ensures OtherBlocks() == old(OtherBlocks())
      ensures r.Some? ==> Taken(r.value, old(lists), old(used), old(pages.live))
      ensures r.Some? ==> Preferred(r.value, old(lists), old(used))
    {
      if lists.partial == [] {
        if lists.free == [] {
          allocFail := allocFail + 1;
          r := Grow();
        } else {
          allocSucceed := allocSucceed + 1;
          r := Some(lists.free[0]);
        }
      } else {
        allocSucceed := allocSucceed + 1;
        r := Some(lists.partial[0]);
      }
    }

    /** The slab is one the cache had, or a new live page of the page allocator. */
    ghost predicate Taken(slab: int, oldLists: Lists, oldUsed: map<int, set<nat>>, oldLive: set<Block>)
      reads this, pages
    {
      if slab in oldUsed then used == oldUsed && lists == oldLists && pages.live == oldLive
      else
        && pages.IsLive(slab, 0)
        && Block(0, AddrToPageIdx(pages.base, slab, 0)) !in oldLive
        && pages.live == oldLive + {Block(0, AddrToPageIdx(pages.base, slab, 0))}
        && used == oldUsed[slab := {}]
        && lists.free == [slab] + oldLists.free && oldLists.free == [] == oldLists.partial
    }

    /** The first clear bit of the slab is set, and the slab moved to the list that
        its new count dictates (kernel/mm/slab.c:100-111). */
    method TakeBit(slab: int) returns (bit: nat)
      requires Own() && (slab in lists.free || slab in lists.partial)
      modifies this
      ensures Own() && slab in old(used) && bit < objnum && bit !in old(used[slab])
      ensures forall b: nat :: b < bit ==> b in old(used[slab])
      ensures used == old(used)[slab := old(used[slab]) + {bit}]
      ensures lists == TakeObject(old(lists), slab)
    {
      ObjectsFit(objsize, 0);
      var w;
      bit, w := TakeFirstZero(words[slab], used[slab], objnum);
      TakeLists(lists, slab, objnum);
      SlabChanged(lists.count, words, used, objnum, slab, lists.count[slab] - 1, w, used[slab] + {bit});
      words, used := words[slab := w], used[slab := used[slab] + {bit}];
      lists := TakeObject(lists, slab);
    }

    /** `kmem_cache_alloc` */
    method Alloc() returns (r: Option<int>)
      requires Valid()
      modifies this, pages, pages.bitmap
      ensures Valid()
      ensures r.None? <==> old(Exhausted())
      ensures r.None? ==> Live() == old(Live()) && pages.live == old(pages.live) && pages.bits == old(pages.bits)
      ensures r.Some? ==> r.value !in old(Live()) && Live() == old(Live()) + {r.value}
      ensures r.Some? ==> Preferred(SlabOf(r.value), old(lists), old(used))
      ensures OtherBlocks() == old(OtherBlocks())
      ensures old(lists.free) == [] ==> lists.free == []
    {
      var s := PickSlab();
      r := None;
      if s.Some? {
        PickedLive(s.value, old(used));
        var p := TakeOneFrom(s.value);
        r := Some(p);
      }
    }

    /** One object from a slab that has one; the pages are not touched. */
    method TakeOneFrom(slab: int) returns (p: int)
      requires Valid() && (slab in lists.free || slab in lists.partial)
      modifies this
      ensures Valid() && OtherBlocks() == old(OtherBlocks())
      ensures p !in old(Live()) && Live() == old(Live()) + {p} && SlabOf(p) == slab
      ensures lists.free == if slab in old(lists.free) then Without(old(lists.free), slab) else old(lists.free)
    {
      SlabsArePages();
      p := TakeFrom(slab);
    }

    lemma PickedLive(slab: int, before: map<int, set<nat>>)
      requires if slab in before then used == before else used == before[slab := {}]
      ensures Live() == Objects(before, objsize)
    {
      if slab !in before { EmptySlab(before, objsize, slab); }
    }

    /** One object from a slab that has one. */
    method TakeFrom(slab: int) returns (p: int)
      requires Own() && PageStarts(used) && (slab in lists.free || slab in lists.partial)
      modifies this
      ensures Own() && used.Keys == old(used.Keys)
      ensures p !in old(Live()) && Live() == old(Live()) + {p} && SlabOf(p) == slab
      ensures lists.free == if slab in old(lists.free) then Without(old(lists.free), slab) else old(lists.free)
    {
      ghost var before := used;
      ObjectsFit(objsize, 0);
      TakeLists(lists, slab, objnum);
      var bit := TakeBit(slab);
      p := ObjectAt(slab, bit, objsize);
      NewObject(before, objsize, slab, bit, p);
    }

    /** One bit is cleared, and the slab moved to the list that its new count
        dictates, or taken off all lists (kernel/mm/slab.c:131-136). */
    method GiveBit(slab: int, bit: nat) returns (empty: bool)
      requires Own() && slab in used && bit in used[slab]
      modifies this
      ensures Own() && empty == (old(used[slab]) == {bit})
      ensures used == if empty then old(used) - {slab} else old(used)[slab := old(used[slab]) - {bit}]
      ensures lists == GiveObject(old(lists), slab, objnum)
    {
      ObjectsFit(objsize, 0);
      GiveLists(lists, slab, objnum);
      var w := ClearOne(words[slab], used[slab], bit);
      ghost var rest := used[slab] - {bit};
      SlabChanged(lists.count, words, used, objnum, slab, lists.count[slab] + 1, w, rest);
      empty := lists.count[slab] + 1 == objnum;
      assert |rest| == 0 <==> rest == {};
      if empty {
        SlabDropped(lists.count, words, used, objnum, slab);
        words, used := words - {slab}, used - {slab};
      } else {
        words, used := words[slab := w], used[slab := rest];
      }
      lists := GiveObject(lists, slab, objnum);
    }

    /** `kmem_cache_free` */
    method Free(obj: int)
      requires Valid() && obj in Live()
      modifies this, pages, pages.bitmap
      ensures Valid() && Live() == old(Live()) - {obj}
      ensures OtherBlocks() == old(OtherBlocks())
      ensures old(lists.free) == [] ==> lists.free == []
    {
      var slab, empty := GiveOneBack(obj);
      if empty {
        ReturnPage(slab);
      }
    }

    /** One object goes back to its slab; the pages are not touched. */
    method GiveOneBack(obj: int) returns (slab: int, empty: bool)
      requires Valid() && obj in Live()
      modifies this
      ensures Valid() && Live() == old(Live()) - {obj} && lists.free == old(lists.free)
      ensures pages.IsLive(slab, 0) && (empty ==> slab !in used)
      ensures BlockOf(slab, pages.base) !in old(OtherBlocks())
      ensures OtherBlocks() == old(OtherBlocks()) + if empty then {BlockOf(slab, pages.base)} else {}
    {
      SlabsArePages();
      slab, empty := GiveBack(obj);
      if empty { DroppedBlock(old(used.Keys), pages.base, slab, pages.live); }
    }

    /** `free_pages` of a slab that is on no list any more */
    method ReturnPage(slab: int)
      requires pages.Valid() && pages.IsLive(slab, 0) && slab !in used && Own() && Backed()
      modifies pages, pages.bitmap
      ensures Valid() && pages.live == old(pages.live) - {BlockOf(slab, pages.base)}
    {
      pages.FreePages(slab, 0);
    }

    /** The slab and bit of an object are computed from its address, and the bit cleared. */
    method GiveBack(obj: int) returns (slab: int, empty: bool)
      requires Own() && PageStarts(used) && obj in Live()
      modifies this
      ensures Own() && Live() == old(Live()) - {obj} && slab in old(used)
      ensures used.Keys == if empty then old(used.Keys) - {slab} else old(used.Keys)
      ensures lists.free == old(lists.free)
    {
      ghost var a, b :| a in used && b in used[a] && obj == ObjectAt(a, b, objsize);
      AddressRoundTrip(a, b, objsize);
      slab := SlabOf(obj);
      var bit := IndexOf(obj, objsize);
      ghost var before := used;
      empty := GiveBit(slab, bit);
      ObjectRemoved(before, used, objsize, slab, bit);
    }
  }

  /** A page that is no slab any more is one of the other blocks. */
  lemma DroppedBlock(slabs: set<int>, base: nat, a: int, live: set<Block>)
    requires a in slabs && base <= a && BlockOf(a, base) in live
    requires forall x :: x in slabs ==> base <= x && x == PageIdxToAddr(base, AddrToPageIdx(base, x, 0), 0)
    ensures live - BlocksOf(slabs - {a}, base) == (live - BlocksOf(slabs, base)) + {BlockOf(a, base)}
  {
    forall b
      ensures b in BlocksOf(slabs, base) <==> b in BlocksOf(slabs - {a}, base) || b == BlockOf(a, base)
    {
    }
    assert BlockOf(a, base) !in BlocksOf(slabs - {a}, base);
  }

  lemma EmptySlab(used: map<int, set<nat>>, objsize: nat, a: int)
    requires a !in used
    ensures Objects(used[a := {}], objsize) == Objects(used, objsize)
  {
    var used' := used[a := {}];
    forall p | p in Objects(used, objsize)
      ensures p in Objects(used', objsize)
    {
      var a', b' :| a' in used && b' in used[a'] && p == ObjectAt(a', b', objsize);
      assert a' in used' && b' in used'[a'];
    }
  }

  lemma OneBitOn(w: bv32, s: set<nat>, bit: nat)
    requires Denotes([w], s) && bit < 32
    ensures Denotes([SetBit(w, bit)], s + {bit})
  {
    DenotesIsBits([w], s);
    BitsAfterUpdate([w], bit, SetBit(w, bit), true);
    assert [w][0 := SetBit(w, bit)] == [SetBit(w, bit)];
    DenotesIsBits([SetBit(w, bit)], s + {bit});
  }

  lemma OneBitOff(w: bv32, s: set<nat>, bit: nat)
    requires Denotes([w], s) && bit in s
    ensures bit < 32 && Denotes([ClearBit(w, bit)], s - {bit})
  {
    DenotesIsBits([w], s);
    assert InWords([w], bit);
    BitsAfterUpdate([w], bit, ClearBit(w, bit), false);
    assert [w][0 := ClearBit(w, bit)] == [ClearBit(w, bit)];
    DenotesIsBits([ClearBit(w, bit)], s - {bit});
  }

  lemma NoBits()
    ensures Denotes([0], {})
  {
    ZeroWords([0]);
  }

  lemma PageAligned(pages: PageAllocator, a: int)
    requires pages.Shape() && pages.IsLive(a, 0)
    ensures a % 256 == 0
  {
    pages.BaseAligned(MIN_PAGE_SHIFT);
    PageSizes();
    assert a == pages.base + AddrToPageIdx(pages.base, a, 0) * 256;
    assert pages.base % 256 == 0;
  }
}
