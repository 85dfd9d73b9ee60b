/** Everything that draws on the page allocator, over every run: caches and other users. */
module SlabRuns {
  import opened Sequences
  import opened Buddy
  import opened PageAllocation
  import opened SlabAllocation
  import opened SlabWorld

  /** An object that cache number `cache` has handed out. */
  datatype Held = Held(cache: nat, obj: int)

  datatype WorldOp =
    | Create(size: nat)           // kmem_cache_create
    | Take(cache: nat)            // kmem_cache_alloc
    | Give(k: nat)                // kmem_cache_free of the k-th object held
    | TakeBlock(order: nat)       // alloc_pages by another user
    | GiveBlock(k: nat)           // free_pages of the k-th block held by others

  /** The live objects of every cache. */
  ghost function Lives(caches: seq<KmemCache>): (l: seq<set<int>>)
    reads caches
    ensures |l| == |caches| && forall j :: 0 <= j < |caches| ==> l[j] == caches[j].Live()
  {
    seq(|caches|, j requires 0 <= j < |caches| reads caches => caches[j].Live())
  }

  /** `held` are exactly the live objects, each once. */
  ghost predicate HeldIsLive(held: seq<Held>, lives: seq<set<int>>) {
    NoDup(held) && forall h :: h in held <==> h.cache < |lives| && h.obj in lives[h.cache]
  }

  ghost predicate Covers(p: int, size: int, x: int) {
    p <= x < p + size
  }

  /** No byte belongs to two live objects. */
  ghost predicate ObjectsApart(caches: seq<KmemCache>)
    reads caches
  {
    forall i: nat, j: nat, p, q, x ::
      (&& i < |caches| && j < |caches| && p in caches[i].Live() && q in caches[j].Live()
       && Covers(p, caches[i].objsize, x) && Covers(q, caches[j].objsize, x)) ==> i == j && p == q
  }

  /** No byte of a live object is in a page block of another user. */
  ghost predicate ApartFromBlocks(caches: seq<KmemCache>, pages: PageAllocator, blocks: set<Block>)
    reads caches
  {
    forall i: nat, p, x, b: Block ::
      (&& i < |caches| && p in caches[i].Live() && Covers(p, caches[i].objsize, x) && b in blocks
       && pages.base <= x) ==> !InBlock(PageOf(pages.base, x), b.order, b.idx)
  }

  lemma WorldIsApart(caches: seq<KmemCache>, pages: PageAllocator)
    requires World(caches, pages)
    ensures ObjectsApart(caches) && ApartFromBlocks(caches, pages, NotSlabs(caches, pages))
  {
    forall i: nat, j: nat, p, q, x |
      && i < |caches| && j < |caches| && p in caches[i].Live() && q in caches[j].Live()
      && Covers(p, caches[i].objsize, x) && Covers(q, caches[j].objsize, x)
      ensures i == j && p == q
    {
      ObjectsDisjoint(caches, pages, i, j, p, q, x);
    }
    forall i: nat, p, x, b: Block |
      && i < |caches| && p in caches[i].Live() && Covers(p, caches[i].objsize, x)
      && b in NotSlabs(caches, pages) && pages.base <= x
      ensures !InBlock(PageOf(pages.base, x), b.order, b.idx)
    {
      ObjectNotInBlock(caches, pages, i, p, x, b);
    }
  }

  lemma ObjectNotInBlock(caches: seq<KmemCache>, pages: PageAllocator, i: nat, p: int, x: int, b: Block)
    requires World(caches, pages) && i < |caches| && p in caches[i].Live()
    requires Covers(p, caches[i].objsize, x) && b in NotSlabs(caches, pages) && pages.base <= x
    ensures !InBlock(PageOf(pages.base, x), b.order, b.idx)
  {
    ObjectInSlab(caches[i], p, x);
    assert b !in BlocksOf(Keys(caches)[i], pages.base);
    if InBlock(PageOf(pages.base, x), b.order, b.idx) {
      ObjectInNoOtherBlock(caches[i], p, x, b);
    }
  }

  /** `kmem_cache_init`: the cache of caches, with a first slab if there is a page. */
  method KmemCacheInit(pages: PageAllocator, objsize: nat) returns (c: KmemCache)
    requires pages.Valid() && Accepted(objsize)
    modifies pages, pages.bitmap
    ensures fresh(c) && World([c], pages) && c.Live() == {}
    ensures NotSlabs([c], pages) == old(pages.live)
  {
    c := new KmemCache(pages, objsize);
    ghost var empty := c.used;
    assert c.SlabBlocks() == {};
    var slab := c.Grow();
    if slab.Some? { EmptySlab(empty, objsize, slab.value); }
    assert Keys([c]) == [c.used.Keys];
    forall b
      ensures b in NotSlabs([c], pages) <==> b in c.OtherBlocks()
    {
      LooseBlock(Keys([c]), pages.base, pages.live, 0, b);
    }
  }

  // ----- the account of objects and blocks -----

  lemma HeldTaken(held: seq<Held>, lives: seq<set<int>>, i: nat, p: int)
    requires HeldIsLive(held, lives) && i < |lives| && p !in lives[i]
    ensures HeldIsLive(held + [Held(i, p)], lives[i := lives[i] + {p}])
  {
    var held', lives' := held + [Held(i, p)], lives[i := lives[i] + {p}];
    forall h
      ensures h in held' <==> h.cache < |lives'| && h.obj in lives'[h.cache]
    {
      assert h in held' <==> h in held || h == Held(i, p);
    }
  }

  lemma HeldGiven(held: seq<Held>, lives: seq<set<int>>, h: Held)
    requires HeldIsLive(held, lives) && h in held
    ensures HeldIsLive(Without(held, h), lives[h.cache := lives[h.cache] - {h.obj}])
  {
    WithoutOthers(held, h);
  }

  lemma HeldCreated(held: seq<Held>, lives: seq<set<int>>)
    requires HeldIsLive(held, lives)
    ensures HeldIsLive(held, lives + [{}])
  {
  }

  method TakeOne(caches: seq<KmemCache>, pages: PageAllocator, i: nat, held: seq<Held>) returns (held': seq<Held>)
    requires World(caches, pages) && i < |caches| && HeldIsLive(held, Lives(caches))
    modifies caches[i], pages, pages.bitmap
    ensures World(caches, pages) && HeldIsLive(held', Lives(caches))
    ensures NotSlabs(caches, pages) == old(NotSlabs(caches, pages))
  {
    ghost var lives := Lives(caches);
    var r := AllocFrom(caches, pages, i);
    held' := if r.None? then held else held + [Held(i, r.value)];
    ghost var now := if r.None? then lives[i] else lives[i] + {r.value};
    LivesChanged(caches, lives, i, now);
    if r.Some? { HeldTaken(held, lives, i, r.value); }
  }

  method GiveOne(caches: seq<KmemCache>, pages: PageAllocator, h: Held, held: seq<Held>) returns (held': seq<Held>)
    requires World(caches, pages) && HeldIsLive(held, Lives(caches)) && h in held
    modifies caches[h.cache], pages, pages.bitmap
    ensures World(caches, pages) && HeldIsLive(held', Lives(caches))
    ensures NotSlabs(caches, pages) == old(NotSlabs(caches, pages))
  {
    ghost var lives := Lives(caches);
    HeldGiven(held, lives, h);
    FreeTo(caches, pages, h.cache, h.obj);
    held' := Without(held, h);
    LivesChanged(caches, lives, h.cache, lives[h.cache] - {h.obj});
  }

  lemma LivesChanged(caches: seq<KmemCache>, lives: seq<set<int>>, i: nat, s: set<int>)
    requires i < |caches| == |lives| && caches[i].Live() == s
    requires forall j :: 0 <= j < |caches| && j != i ==> caches[j].Live() == lives[j]
    ensures Lives(caches) == lives[i := s]
  {
  }

  method CreateOne(caches: seq<KmemCache>, pages: PageAllocator, size: nat, held: seq<Held>)
    returns (caches': seq<KmemCache>, held': seq<Held>)
    requires World(caches, pages) && |caches| > 0 && HeldIsLive(held, Lives(caches))
    modifies caches[0], pages, pages.bitmap
    ensures World(caches', pages) && HeldIsLive(held', Lives(caches'))
    ensures NotSlabs(caches', pages) == old(NotSlabs(caches, pages))
    ensures caches' == caches ||
            (|caches'| == |caches| + 1 && caches'[..|caches|] == caches && fresh(caches'[|caches|]))
  {
    ghost var lives := Lives(caches);
    var r, at := CacheCreate(caches, pages, size);
    if r == null {
      caches', held' := caches, held;
      assert Lives(caches') == lives;
    } else {
      caches', held' := caches + [r], held + [Held(0, at)];
      CreatedAccount(caches, r, held, lives, at);
    }
  }

  /** The structure of a new cache is one more object of the first one; the new one has none. */
  lemma CreatedAccount(caches: seq<KmemCache>, c: KmemCache, held: seq<Held>, lives: seq<set<int>>, at: int)
    requires HeldIsLive(held, lives) && 0 < |caches| == |lives| && c.used == map[]
    requires caches[0].Live() == lives[0] + {at} && at !in lives[0]
    requires forall j :: 0 < j < |caches| ==> caches[j].Live() == lives[j]
    ensures HeldIsLive(held + [Held(0, at)], Lives(caches + [c]))
  {
    HeldTaken(held, lives, 0, at);
    HeldCreated(held + [Held(0, at)], lives[0 := lives[0] + {at}]);
    LivesChanged(caches, lives, 0, lives[0] + {at});
    LivesCreated(caches, c);
  }

  lemma LivesCreated(caches: seq<KmemCache>, c: KmemCache)
    requires c.used == map[]
    ensures Lives(caches + [c]) == Lives(caches) + [{}]
  {
    var all := caches + [c];
    assert c.Live() == {};
    forall j | 0 <= j < |all|
      ensures Lives(all)[j] == (Lives(caches) + [{}])[j]
    {
      assert all[j] == if j < |caches| then caches[j] else c;
    }
  }

  /** `blocks` are the page blocks that other users took since the blocks were `start`. */
  ghost predicate BlocksAreTaken(blocks: seq<Block>, start: set<Block>, now: set<Block>) {
    && NoDup(blocks)
    && (forall b :: b in blocks ==> b !in start)
    && (forall b :: b in now <==> b in start || b in blocks)
  }

  lemma BlockGiven(blocks: seq<Block>, start: set<Block>, now: set<Block>, b: Block)
    requires BlocksAreTaken(blocks, start, now) && b in blocks
    ensures BlocksAreTaken(Without(blocks, b), start, now - {b})
  {
    WithoutOthers(blocks, b);
  }

  method TakeOneBlock(caches: seq<KmemCache>, pages: PageAllocator, order: nat, blocks: seq<Block>,
                      ghost start: set<Block>)
    returns (blocks': seq<Block>)
    requires World(caches, pages) && BlocksAreTaken(blocks, start, NotSlabs(caches, pages))
    modifies pages, pages.bitmap
    ensures World(caches, pages) && BlocksAreTaken(blocks', start, NotSlabs(caches, pages))
  {
    var r := TakePages(caches, pages, order);
    blocks' := if r.Some? then blocks + [r.value] else blocks;
  }

  method GiveOneBlock(caches: seq<KmemCache>, pages: PageAllocator, b: Block, blocks: seq<Block>,
                      ghost start: set<Block>)
    returns (blocks': seq<Block>)
    requires World(caches, pages) && BlocksAreTaken(blocks, start, NotSlabs(caches, pages)) && b in blocks
    modifies pages, pages.bitmap
    ensures World(caches, pages) && BlocksAreTaken(blocks', start, NotSlabs(caches, pages))
  {
    BlockGiven(blocks, start, NotSlabs(caches, pages), b);
    GivePages(caches, pages, b);
    blocks' := Without(blocks, b);
  }

  /** What is handed out, and to whom. */
  datatype Account = Account(caches: seq<KmemCache>, held: seq<Held>, blocks: seq<Block>)

  /** The caches are sound on one page allocator and the account is right. */
  ghost predicate Balanced(a: Account, pages: PageAllocator, start: set<Block>)
    reads a.caches, pages, pages.bitmap
  {
    && |a.caches| > 0
    && World(a.caches, pages)
    && HeldIsLive(a.held, Lives(a.caches))
    && BlocksAreTaken(a.blocks, start, NotSlabs(a.caches, pages))
  }

  /** One operation, by whomever. */
  method RunOp(a: Account, pages: PageAllocator, op: WorldOp, ghost start: set<Block>) returns (a': Account)
    requires Balanced(a, pages, start)
    modifies a.caches, pages, pages.bitmap
    ensures Balanced(a', pages, start)
    ensures |a'.caches| >= |a.caches| && a'.caches[..|a.caches|] == a.caches
    ensures forall j :: |a.caches| <= j < |a'.caches| ==> fresh(a'.caches[j])
  {
    a' := a;
    match op
    case Create(size) =>
      var caches, held := CreateOne(a.caches, pages, size, a.held);
      a' := Account(caches, held, a.blocks);
    case Take(i) =>
      if i < |a.caches| {
        var held := TakeOne(a.caches, pages, i, a.held);
        a' := a.(held := held);
      }
    case Give(k) =>
      if k < |a.held| && a.held[k].cache > 0 {
        var held := GiveOne(a.caches, pages, a.held[k], a.held);
        a' := a.(held := held);
      }
    case TakeBlock(order) =>
      var blocks := TakeOneBlock(a.caches, pages, order, a.blocks, start);
      a' := a.(blocks := blocks);
    case GiveBlock(k) =>
      if k < |a.blocks| {
        var blocks := GiveOneBlock(a.caches, pages, a.blocks[k], a.blocks, start);
        a' := a.(blocks := blocks);
      }
  }

  /**
   Any run of cache creations, object allocations and frees, and page allocations and
   frees by others: the caches stay valid on one page allocator, the objects and blocks
   that are held are exactly the live ones, and no two of them share a byte.
   */
  method RunWorld(cacheCaches: KmemCache, pages: PageAllocator, ops: seq<WorldOp>) returns (a: Account)
    requires World([cacheCaches], pages) && cacheCaches.Live() == {}
    modifies cacheCaches, pages, pages.bitmap
    ensures Balanced(a, pages, old(NotSlabs([cacheCaches], pages)))
    ensures ObjectsApart(a.caches) && ApartFromBlocks(a.caches, pages, NotSlabs(a.caches, pages))
  {
    a := Account([cacheCaches], [], []);
    ghost var start := NotSlabs(a.caches, pages);
    for n := 0 to |ops|
      invariant Balanced(a, pages, start)
      invariant a.caches[0] == cacheCaches && forall j :: 1 <= j < |a.caches| ==> fresh(a.caches[j])
    {
      ghost var before := a.caches;
      a := RunOp(a, pages, ops[n], start);
      forall j | 0 <= j < |a.caches|
        ensures if j == 0 then a.caches[j] == cacheCaches else fresh(a.caches[j])
      {
        if j < |before| { assert a.caches[j] == a.caches[..|before|][j] == before[j]; }
      }
    }
    WorldIsApart(a.caches, pages);
  }
}
