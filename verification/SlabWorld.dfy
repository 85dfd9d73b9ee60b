/** Several slab caches and other users on one page allocator. */
module SlabWorld {
  import opened Arithmetic
  import opened Options
  import opened Sequences
  import opened Buddy
  import opened PageAllocation
  import opened SlabAllocation

  /** Addresses of minimum pages. */
  ghost predicate PageAddr(a: int, base: nat) {
    base <= a && a == PageIdxToAddr(base, AddrToPageIdx(base, a, 0), 0)
  }

  ghost predicate Apart(s: set<int>, t: set<int>) {
    forall a :: a in s ==> a !in t
  }

  /** All caches draw their slabs from one page allocator, and share none. */
  ghost predicate World(caches: seq<KmemCache>, pages: PageAllocator)
    reads pages, pages.bitmap, caches
  {
    && pages.Valid()
    && (forall i :: 0 <= i < |caches| ==> caches[i].pages == pages && caches[i].Valid())
    && (forall i, j :: 0 <= i < j < |caches| ==> caches[i] != caches[j])
    && (forall i, j :: 0 <= i < |caches| && 0 <= j < |caches| && i != j ==>
          Apart(caches[i].used.Keys, caches[j].used.Keys))
  }

  ghost predicate AllPages(slabs: set<int>, base: nat) {
    forall a :: a in slabs ==> PageAddr(a, base)
  }

  ghost predicate AllLive(slabs: set<int>, base: nat, live: set<Block>) {
    forall a :: a in slabs ==> base <= a && BlockOf(a, base) in live
  }

  lemma BlockIn(slabs: set<int>, base: nat, a: int)
    requires PageAddr(a, base) && AllPages(slabs, base)
    ensures BlockOf(a, base) in BlocksOf(slabs, base) <==> a in slabs
  {
  }

  /** What one cache does to its own slabs keeps the slabs of another. */
  lemma OthersKept(base: nat, mine: set<int>, mine': set<int>, live: set<Block>, live': set<Block>, other: set<int>)
    requires live - BlocksOf(mine, base) == live' - BlocksOf(mine', base)
    requires AllPages(mine, base) && AllPages(mine', base) && AllPages(other, base)
    requires Apart(other, mine) && AllLive(other, base, live)
    ensures Apart(other, mine') && AllLive(other, base, live')
  {
    forall a | a in other
      ensures a !in mine' && base <= a && BlockOf(a, base) in live'
    {
      assert PageAddr(a, base);
      BlockIn(mine, base, a);
      BlockIn(mine', base, a);
      assert BlockOf(a, base) in live - BlocksOf(mine, base);
    }
  }

  lemma SlabsArePageAddrs(c: KmemCache)
    requires c.Backed()
    ensures AllPages(c.used.Keys, c.pages.base) && AllLive(c.used.Keys, c.pages.base, c.pages.live)
  {
    forall a | a in c.used.Keys
      ensures PageAddr(a, c.pages.base) && BlockOf(a, c.pages.base) in c.pages.live
    {
      assert c.pages.IsLive(a, 0);
    }
  }

  lemma PagesBackCache(c: KmemCache)
    requires AllPages(c.used.Keys, c.pages.base) && AllLive(c.used.Keys, c.pages.base, c.pages.live)
    ensures c.Backed()
  {
    forall a | a in c.used
      ensures c.pages.IsLive(a, 0)
    {
      assert a in c.used.Keys && PageAddr(a, c.pages.base);
    }
  }

  lemma OthersAre(caches: seq<KmemCache>, i: nat)
    requires i < |caches| && forall i, j :: 0 <= i < j < |caches| ==> caches[i] != caches[j]
    ensures forall j :: 0 <= j < |caches| && j != i ==> caches[j] != caches[i]
  {
  }

  /** What the other users of the page allocator see of an allocation */
  method AllocOne(c: KmemCache) returns (r: Option<int>)
    requires c.Valid()
    modifies c, c.pages, c.pages.bitmap
    ensures c.Valid() && c.OtherBlocks() == old(c.OtherBlocks())
    ensures r.None? <==> old(c.Exhausted())
    ensures r.None? ==> c.Live() == old(c.Live())
    ensures r.Some? ==> r.value !in old(c.Live()) && c.Live() == old(c.Live()) + {r.value}
  {
    r := c.Alloc();
  }

  /** An allocation from, or a free to, any one cache keeps the world. */
  method AllocFrom(caches: seq<KmemCache>, pages: PageAllocator, i: nat) returns (r: Option<int>)
    requires World(caches, pages) && i < |caches|
    modifies caches[i], pages, pages.bitmap
    ensures World(caches, pages) && NotSlabs(caches, pages) == old(NotSlabs(caches, pages))
    ensures r.None? <==> old(caches[i].Exhausted())
    ensures r.None? ==> caches[i].Live() == old(caches[i].Live())
    ensures r.Some? ==> r.value !in old(caches[i].Live()) && caches[i].Live() == old(caches[i].Live()) + {r.value}
    ensures forall j :: 0 <= j < |caches| && j != i ==> caches[j].used == old(caches[j].used)
  {
    var c := caches[i];
    ghost var mine, live := c.used.Keys, pages.live;
    ghost var keys := Keys(caches);
    KeysFit(caches, pages);
    OthersAre(caches, i);
    r := AllocOne(c);
    forall j | 0 <= j < |caches| && j != i
      ensures caches[j].used == old(caches[j].used) && caches[j].Own()
    {
      assert old(caches[j].Own());
    }
    Rebuilt(caches, pages, i, mine, live, keys);
    LooseKept(keys, Keys(caches), pages.base, live, pages.live, i);
  }

  method FreeTo(caches: seq<KmemCache>, pages: PageAllocator, i: nat, obj: int)
    requires World(caches, pages) && i < |caches| && obj in caches[i].Live()
    modifies caches[i], pages, pages.bitmap
    ensures World(caches, pages) && NotSlabs(caches, pages) == old(NotSlabs(caches, pages))
    ensures caches[i].Live() == old(caches[i].Live()) - {obj}
    ensures forall j :: 0 <= j < |caches| && j != i ==> caches[j].used == old(caches[j].used)
  {
    var c := caches[i];
    ghost var mine, live := c.used.Keys, pages.live;
    ghost var keys := Keys(caches);
    KeysFit(caches, pages);
    OthersAre(caches, i);
    c.Free(obj);
    forall j | 0 <= j < |caches| && j != i
      ensures caches[j].used == old(caches[j].used) && caches[j].Own()
    {
      assert old(caches[j].Own());
    }
    Rebuilt(caches, pages, i, mine, live, keys);
    LooseKept(keys, Keys(caches), pages.base, live, pages.live, i);
  }

  /** The slabs of every cache. */
  ghost function Keys(caches: seq<KmemCache>): (k: seq<set<int>>)
    reads caches
    ensures |k| == |caches| && forall j :: 0 <= j < |caches| ==> k[j] == caches[j].used.Keys
  {
    seq(|caches|, j requires 0 <= j < |caches| reads caches => caches[j].used.Keys)
  }

  /** Some cache has `b` as a slab. */
  ghost predicate SomeSlab(keys: seq<set<int>>, base: nat, b: Block) {
    exists j :: 0 <= j < |keys| && b in BlocksOf(keys[j], base)
  }

  ghost function Loose(keys: seq<set<int>>, base: nat, live: set<Block>): set<Block> {
    set b | b in live && !SomeSlab(keys, base, b)
  }

  /** The live page blocks of other users: stacks, and whatever else is not a slab. */
  ghost function NotSlabs(caches: seq<KmemCache>, pages: PageAllocator): set<Block>
    reads caches, pages
  {
    Loose(Keys(caches), pages.base, pages.live)
  }

  lemma LooseKept(keys: seq<set<int>>, keys': seq<set<int>>, base: nat, live: set<Block>, live': set<Block>, i: nat)
    requires i < |keys| == |keys'| && forall j :: 0 <= j < |keys| && j != i ==> keys'[j] == keys[j]
    requires live - BlocksOf(keys[i], base) == live' - BlocksOf(keys'[i], base)
    ensures Loose(keys, base, live) == Loose(keys', base, live')
  {
    forall b
      ensures b in Loose(keys, base, live) <==> b in Loose(keys', base, live')
    {
      LooseBlock(keys, base, live, i, b);
      LooseBlock(keys', base, live', i, b);
    }
  }

  lemma LooseBlock(keys: seq<set<int>>, base: nat, live: set<Block>, i: nat, b: Block)
    requires i < |keys|
    ensures b in Loose(keys, base, live) <==>
            b in live - BlocksOf(keys[i], base) &&
            forall j :: 0 <= j < |keys| && j != i ==> b !in BlocksOf(keys[j], base)
  {
  }

  ghost predicate KeysOk(keys: seq<set<int>>, base: nat, live: set<Block>) {
    && (forall j :: 0 <= j < |keys| ==> AllPages(keys[j], base) && AllLive(keys[j], base, live))
    && (forall i, j :: 0 <= i < |keys| && 0 <= j < |keys| && i != j ==> Apart(keys[i], keys[j]))
  }

  lemma KeysFit(caches: seq<KmemCache>, pages: PageAllocator)
    requires World(caches, pages)
    ensures KeysOk(Keys(caches), pages.base, pages.live)
  {
    forall j | 0 <= j < |caches|
      ensures AllPages(Keys(caches)[j], pages.base) && AllLive(Keys(caches)[j], pages.base, pages.live)
    {
      SlabsArePageAddrs(caches[j]);
    }
  }

  /** After cache `i` has changed its own slabs, every cache still owns its own. */
  lemma Rebuilt(caches: seq<KmemCache>, pages: PageAllocator, i: nat, mine: set<int>, live: set<Block>,
                keys: seq<set<int>>)
    requires i < |caches| == |keys| && KeysOk(keys, pages.base, live) && mine == keys[i]
    requires forall j :: 0 <= j < |caches| ==> caches[j].pages == pages
    requires caches[i].Backed() && caches[i].OtherBlocks() == live - BlocksOf(mine, pages.base)
    requires forall j :: 0 <= j < |caches| && j != i ==> caches[j].used.Keys == keys[j]
    ensures forall j :: 0 <= j < |caches| ==> caches[j].Backed()
    ensures forall i, j :: 0 <= i < |caches| && 0 <= j < |caches| && i != j ==>
      Apart(caches[i].used.Keys, caches[j].used.Keys)
  {
    SlabsArePageAddrs(caches[i]);
    forall j | 0 <= j < |caches| && j != i
      ensures caches[j].Backed() && Apart(caches[j].used.Keys, caches[i].used.Keys)
    {
      OthersKept(pages.base, mine, caches[i].used.Keys, live, pages.live, keys[j]);
      PagesBackCache(caches[j]);
    }
  }

  /**
   `kmem_cache_create`.  The structure of the new cache is an object of the first cache;
   creation fails exactly for sizes outside the accepted range, and when that object
   cannot be allocated.  `at` is its address.
   */
  method CacheCreate(caches: seq<KmemCache>, pages: PageAllocator, size: nat) returns (r: KmemCache?, at: int)
    requires World(caches, pages) && |caches| > 0
    modifies caches[0], pages, pages.bitmap
    ensures r == null <==> size < 8 || size > 120 || old(caches[0].Exhausted())
    ensures r == null ==> World(caches, pages) && caches[0].Live() == old(caches[0].Live())
    ensures r != null ==> fresh(r) && r.objsize == size && r.used == map[] && World(caches + [r], pages)
    ensures r != null ==> at !in old(caches[0].Live()) && caches[0].Live() == old(caches[0].Live()) + {at}
    ensures NotSlabs(if r == null then caches else caches + [r], pages) == old(NotSlabs(caches, pages))
    ensures forall j :: 0 < j < |caches| ==> caches[j].used == old(caches[j].used)
  {
    r, at := null, 0;
    if size < 8 {
      return;
    }
    if size > (256 - SLAB_HEADER) / 2 {
      return;
    }
    var mem := AllocFrom(caches, pages, 0);
    if mem.None? {
      return;
    }
    at := mem.value;
    r := new KmemCache(pages, size);
    NewCache(caches, r, pages);
  }

  /** A cache without slabs joins the world. */
  lemma NewCache(caches: seq<KmemCache>, c: KmemCache, pages: PageAllocator)
    requires World(caches, pages) && c.Valid() && c.pages == pages && c.used == map[] && c !in caches
    ensures World(caches + [c], pages) && NotSlabs(caches + [c], pages) == NotSlabs(caches, pages)
  {
    NewKeys(caches, c);
    LooseWithEmpty(Keys(caches), pages.base, pages.live);
  }

  lemma NewKeys(caches: seq<KmemCache>, c: KmemCache)
    requires c.used == map[]
    ensures Keys(caches + [c]) == Keys(caches) + [{}]
  {
    var all := caches + [c];
    assert c.used.Keys == {};
    forall j | 0 <= j < |all|
      ensures Keys(all)[j] == (Keys(caches) + [{}])[j]
    {
      assert all[j] == if j < |caches| then caches[j] else c;
    }
  }

  lemma LooseWithEmpty(keys: seq<set<int>>, base: nat, live: set<Block>)
    ensures Loose(keys + [{}], base, live) == Loose(keys, base, live)
  {
    var keys' := keys + [{}];
    assert BlocksOf({}, base) == {};
    forall b
      ensures SomeSlab(keys', base, b) <==> SomeSlab(keys, base, b)
    {
      if SomeSlab(keys, base, b) {
        var j :| 0 <= j < |keys| && b in BlocksOf(keys[j], base);
        assert keys'[j] == keys[j];
      }
    }
  }

  // ----- other users of the page allocator -----

  /** `alloc_pages` for another user */
  method TakePages(caches: seq<KmemCache>, pages: PageAllocator, order: nat) returns (r: Option<Block>)
    requires World(caches, pages)
    modifies pages, pages.bitmap
    ensures World(caches, pages)
    ensures r.None? <==> forall i: nat :: !(order <= pages.maxOrder && Whole(old(pages.free), order, i))
    ensures r.None? ==> NotSlabs(caches, pages) == old(NotSlabs(caches, pages))
    ensures r.Some? ==> r.value !in old(NotSlabs(caches, pages))
    ensures r.Some? ==> NotSlabs(caches, pages) == old(NotSlabs(caches, pages)) + {r.value}
  {
    ghost var keys, live := Keys(caches), pages.live;
    KeysFit(caches, pages);
    var addr := pages.AllocPages(order);
    if addr.None? {
      r := None;
    } else {
      r := Some(Block(order, AddrToPageIdx(pages.base, addr.value, order)));
      LooseAdded(keys, pages.base, live, r.value);
    }
    StillBacked(caches, pages, keys);
  }

  /** `free_pages` for another user */
  method GivePages(caches: seq<KmemCache>, pages: PageAllocator, b: Block)
    requires World(caches, pages) && b in NotSlabs(caches, pages)
    modifies pages, pages.bitmap
    ensures World(caches, pages) && NotSlabs(caches, pages) == old(NotSlabs(caches, pages)) - {b}
  {
    ghost var keys, live := Keys(caches), pages.live;
    KeysFit(caches, pages);
    AddrIdxInverse(pages.base, b.idx, b.order);
    pages.FreePages(PageIdxToAddr(pages.base, b.idx, b.order), b.order);
    SlabsNotFreed(keys, pages.base, live, b);
    StillBacked(caches, pages, keys);
  }

  lemma StillBacked(caches: seq<KmemCache>, pages: PageAllocator, keys: seq<set<int>>)
    requires keys == Keys(caches) && forall j :: 0 <= j < |caches| ==> caches[j].pages == pages
    requires KeysOk(keys, pages.base, pages.live)
    ensures forall j :: 0 <= j < |caches| ==> caches[j].Backed()
  {
    forall j | 0 <= j < |caches|
      ensures caches[j].Backed()
    {
      PagesBackCache(caches[j]);
    }
  }

  /** A new block is no slab, and the slabs stay live. */
  lemma LooseAdded(keys: seq<set<int>>, base: nat, live: set<Block>, b: Block)
    requires KeysOk(keys, base, live) && b !in live
    ensures KeysOk(keys, base, live + {b})
    ensures Loose(keys, base, live + {b}) == Loose(keys, base, live) + {b}
  {
    assert !SomeSlab(keys, base, b);
  }

  lemma SlabsNotFreed(keys: seq<set<int>>, base: nat, live: set<Block>, b: Block)
    requires KeysOk(keys, base, live) && b in Loose(keys, base, live)
    ensures KeysOk(keys, base, live - {b})
    ensures Loose(keys, base, live - {b}) == Loose(keys, base, live) - {b}
  {
    forall j | 0 <= j < |keys|
      ensures AllLive(keys[j], base, live - {b})
    {
      assert b !in BlocksOf(keys[j], base);
      forall a | a in keys[j]
        ensures base <= a && BlockOf(a, base) in live - {b}
      {
        assert BlockOf(a, base) in BlocksOf(keys[j], base);
      }
    }
  }

  // ----- no two live things overlap -----

  /** The page that byte `x` is in. */
  function PageOf(base: nat, x: int): nat
    requires base <= x
  {
    (x - base) / 256
  }

  /** The bytes of an object lie in its slab's page, past the header. */
  lemma ObjectInSlab(c: KmemCache, obj: int, x: int)
    requires c.Valid() && obj in c.Live() && obj <= x < obj + c.objsize
    ensures SlabOf(obj) in c.used && SlabOf(obj) + SLAB_HEADER <= x < SlabOf(obj) + 256
    ensures c.pages.base <= x && PageOf(c.pages.base, x) == AddrToPageIdx(c.pages.base, SlabOf(obj), 0)
  {
    c.SlabsArePages();
    var a, b :| a in c.used && b in c.used[a] && obj == ObjectAt(a, b, c.objsize);
    AddressRoundTrip(a, b, c.objsize);
    ObjectsFit(c.objsize, b);
    PageSizes();
    assert c.pages.IsLive(a, 0);
    var idx := AddrToPageIdx(c.pages.base, a, 0);
    assert a == c.pages.base + idx * 256;
    DivModUnique(x - c.pages.base, 256, idx, x - a);
  }

  /** A byte of a live object is in no live page block but its slab. */
  lemma ObjectInNoOtherBlock(c: KmemCache, obj: int, x: int, b: Block)
    requires c.Valid() && obj in c.Live() && obj <= x < obj + c.objsize && c.pages.base <= x
    requires b in c.pages.live && InBlock(PageOf(c.pages.base, x), b.order, b.idx)
    ensures c.pages.base <= SlabOf(obj) && b == BlockOf(SlabOf(obj), c.pages.base)
  {
    ObjectInSlab(c, obj, x);
    assert c.pages.IsLive(SlabOf(obj), 0);
    var own := BlockOf(SlabOf(obj), c.pages.base);
    assert own in c.pages.live;
    assert InBlock(PageOf(c.pages.base, x), own.order, own.idx);
    assert Overlap(b, own);
  }

  /** Live objects, of one cache or of two, do not overlap. */
  lemma ObjectsDisjoint(caches: seq<KmemCache>, pages: PageAllocator, i: nat, j: nat, p: int, q: int, x: int)
    requires World(caches, pages) && i < |caches| && j < |caches|
    requires p in caches[i].Live() && q in caches[j].Live()
    requires p <= x < p + caches[i].objsize && q <= x < q + caches[j].objsize
    ensures i == j && p == q
  {
    ObjectInSlab(caches[i], p, x);
    ObjectInSlab(caches[j], q, x);
    assert pages.IsLive(SlabOf(p), 0) && pages.IsLive(SlabOf(q), 0);
    assert SlabOf(p) == SlabOf(q);
    if i == j { SameSlabSameObject(caches[i], p, q, x); }
  }

  lemma SameSlabSameObject(c: KmemCache, p: int, q: int, x: int)
    requires c.Valid() && p in c.Live() && q in c.Live() && SlabOf(p) == SlabOf(q)
    requires p <= x < p + c.objsize && q <= x < q + c.objsize
    ensures p == q
  {
    c.SlabsArePages();
    var a, b :| a in c.used && b in c.used[a] && p == ObjectAt(a, b, c.objsize);
    var a', b' :| a' in c.used && b' in c.used[a'] && q == ObjectAt(a', b', c.objsize);
    AddressRoundTrip(a, b, c.objsize);
    AddressRoundTrip(a', b', c.objsize);
    if b < b' {
      ObjectsDisjointInSlab(a, b, b', c.objsize);
    } else if b' < b {
      ObjectsDisjointInSlab(a, b', b, c.objsize);
    }
  }

  // ----- nothing leaks -----

  lemma SlabHasObject(c: KmemCache, a: int)
    requires c.Own() && c.lists.free == [] && a in c.used
    ensures c.Live() != {}
  {
    ObjectsFit(c.objsize, 0);
    assert a in c.lists.partial || a in c.lists.full;
    assert |c.used[a]| >= 1;
    var b :| b in c.used[a];
    assert ObjectAt(a, b, c.objsize) in c.Live();
  }

  /** A cache without spare slabs and without live objects has no slabs. */
  lemma NoObjectsNoSlabs(c: KmemCache)
    requires c.Own() && c.lists.free == [] && c.Live() == {}
    ensures c.used == map[]
  {
    forall a
      ensures a !in c.used
    {
      if a in c.used { SlabHasObject(c, a); }
    }
  }

  /** Allocate an object, or free the `k`th one still held. */
  datatype SlabOp = Take | Give(k: nat)

  /** Whatever a cache that began without slabs did, once all its objects are
      freed, in whatever order, the page bitmaps are what they were. */
  method RunCache(c: KmemCache, ops: seq<SlabOp>) returns (objects: seq<int>)
    requires c.Valid() && c.used == map[] && c.lists.free == []
    modifies c, c.pages, c.pages.bitmap
    ensures c.Valid() && NoDup(objects) && c.Live() == set p | p in objects
    ensures objects == [] ==> c.pages.bits == old(c.pages.bits) && c.pages.Words() == old(c.pages.Words())
  {
    ghost var bits0, free0, live0 := c.pages.bits, c.pages.free, c.pages.live;
    ghost var words0 := c.pages.Words();
    assert c.SlabBlocks() == {};
    objects := [];
    for n := 0 to |ops|
      invariant c.Valid() && NoDup(objects) && c.Live() == set p | p in objects
      invariant c.lists.free == [] && c.OtherBlocks() == live0
    {
      match ops[n]
      case Take =>
        var r := c.Alloc();
        if r.Some? {
          objects := objects + [r.value];
        }
      case Give(k) =>
        if k < |objects| {
          var p := objects[k];
          c.Free(p);
          WithoutOthers(objects, p);
          objects := Without(objects, p);
        }
    }
    if objects == [] {
      NoObjectsNoSlabs(c);
      assert c.SlabBlocks() == {};
      assert c.pages.live == live0;
      assert c.pages.free == free0;
      Restored(c.pages, bits0, words0);
    }
  }
}
