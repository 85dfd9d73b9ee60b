/**
 The boundary-tag heap of libc/stdlib.c: first-fit allocation from the tail of a
 free block, and merging with both neighbours on free.
 */
module Heap {
  import opened Options
  import opened Sequences
  import opened Words
  import opened Tags

  /** `sizeof(struct malloc_tag)` on a 32-bit machine: the packed word and a list node */
  const TAG: int := 12

  // ----- requests -----

  /** `align_next(size, 4) + sizeof(struct malloc_tag)` in 32-bit arithmetic */
  function RequestLength(size: int): int
    requires 0 <= size < 0x1_0000_0000
  {
    var up := (size + 3) % 0x1_0000_0000;
    (up - up % 4 + TAG) % 0x1_0000_0000
  }

  /** The rounded length has room for the request exactly when nothing overflows. */
  lemma RequestFits(size: int)
    requires 0 <= size < 0x1_0000_0000
    ensures RequestLength(size) >= size + TAG <==> size <= 0x1_0000_0000 - 16
    ensures size <= 0x1_0000_0000 - 16 ==> RequestLength(size) % 4 == 0
    ensures size <= 0x1_0000_0000 - 16 ==> TAG <= RequestLength(size) < size + TAG + 4
  {
  }

  // ----- the block list -----

  /** A block: its tag's address, its full length, tag included, and its free bit. */
  datatype Block = Block(addr: int, length: int, free: bool)
  {
    function End(): int {
      addr + length
    }
  }

  /** The blocks cover `s` to `e` without gap or overlap, in address order. */
  ghost predicate Tiles(bs: seq<Block>, s: int, e: int) {
    if bs == [] then s == e
    else bs[0].addr == s && bs[0].length >= TAG && Tiles(bs[1..], bs[0].End(), e)
  }

  ghost predicate StartsFree(bs: seq<Block>) {
    bs != [] && bs[0].free
  }

  ghost predicate EndsFree(bs: seq<Block>) {
    bs != [] && bs[|bs| - 1].free
  }

  /** No two neighbours are both free. */
  ghost predicate Merged(bs: seq<Block>) {
    bs == [] || (!(bs[0].free && StartsFree(bs[1..])) && Merged(bs[1..]))
  }

  lemma {:induction false} TilesConcat(a: seq<Block>, b: seq<Block>, s: int, m: int, e: int)
    requires Tiles(a, s, m) && Tiles(b, m, e)
    ensures Tiles(a + b, s, e)
  {
    if a == [] {
      assert a + b == b;
    } else {
      assert (a + b)[1..] == a[1..] + b;
      TilesConcat(a[1..], b, a[0].End(), m, e);
    }
  }

  /** The address at which the blocks `a` end. */
  ghost function EndOf(a: seq<Block>, s: int): int {
    if a == [] then s else EndOf(a[1..], a[0].End())
  }

  lemma {:induction false} TilesSplit(a: seq<Block>, b: seq<Block>, s: int, e: int)
    requires Tiles(a + b, s, e)
    ensures Tiles(a, s, EndOf(a, s)) && Tiles(b, EndOf(a, s), e)
  {
    if a == [] {
      assert a + b == b;
    } else {
      assert (a + b)[1..] == a[1..] + b;
      TilesSplit(a[1..], b, a[0].End(), e);
    }
  }

  lemma {:induction false} TilesBounds(bs: seq<Block>, s: int, e: int)
    requires Tiles(bs, s, e)
    ensures s <= e && forall b :: b in bs ==> s <= b.addr && b.End() <= e && b.length >= TAG
    ensures e == s <==> bs == []
  {
    if bs != [] { TilesBounds(bs[1..], bs[0].End(), e); }
  }

  lemma {:induction false} MergedConcat(a: seq<Block>, b: seq<Block>)
    ensures Merged(a + b) <==> Merged(a) && Merged(b) && !(EndsFree(a) && StartsFree(b))
  {
    if a == [] {
      assert a + b == b;
    } else {
      assert (a + b)[1..] == a[1..] + b;
      MergedConcat(a[1..], b);
      if a[1..] == [] { assert a[1..] + b == b; }
    }
  }

  /** The allocated blocks. */
  ghost function Live(bs: seq<Block>): set<Block> {
    set b | b in bs && !b.free
  }

  ghost predicate FreeByte(bs: seq<Block>, y: int) {
    exists b :: b in bs && b.free && b.addr <= y < b.End()
  }

  /** `n` consecutive bytes from `x` are free. */
  ghost predicate FreeRun(bs: seq<Block>, x: int, n: int) {
    forall y :: x <= y < x + n ==> FreeByte(bs, y)
  }

  /** The block that contains a byte is unique. */
  lemma {:induction false} OneBlockPerByte(bs: seq<Block>, s: int, e: int, b: Block, b': Block, y: int)
    requires Tiles(bs, s, e) && b in bs && b' in bs && b.addr <= y < b.End() && b'.addr <= y < b'.End()
    ensures b == b'
  {
    TilesBounds(bs[1..], bs[0].End(), e);
    if b != bs[0] && b' != bs[0] { OneBlockPerByte(bs[1..], bs[0].End(), e, b, b', y); }
  }

  /** A byte behind the first block is free if it is free in the rest. */
  lemma FreeInRest(bs: seq<Block>, s: int, e: int, y: int)
    requires Tiles(bs, s, e) && bs != [] && bs[0].End() <= y
    ensures FreeByte(bs, y) <==> FreeByte(bs[1..], y)
  {
    assert bs == [bs[0]] + bs[1..];
  }

  lemma FirstByteTaken(bs: seq<Block>, s: int, e: int)
    requires Tiles(bs, s, e) && !StartsFree(bs)
    ensures !FreeByte(bs, s)
  {
    if bs != [] {
      assert bs == [bs[0]] + bs[1..];
      TilesBounds(bs[1..], bs[0].End(), e);
    }
  }

  /** The byte after a free block is not free. */
  lemma {:induction false} AfterFree(bs: seq<Block>, s: int, e: int, b: Block)
    requires Tiles(bs, s, e) && Merged(bs) && b in bs && b.free
    ensures !FreeByte(bs, b.End())
  {
    var rest := bs[1..];
    TilesBounds(rest, bs[0].End(), e);
    FreeInRest(bs, s, e, b.End());
    if b == bs[0] {
      FirstByteTaken(rest, b.End(), e);
    } else {
      AfterFree(rest, bs[0].End(), e, b);
    }
  }

  /** A free run of `n` bytes exists exactly when one free block is that long. */
  lemma FreeRunIsBlock(bs: seq<Block>, s: int, e: int, n: int)
    requires Tiles(bs, s, e) && Merged(bs) && n > 0
    ensures (exists x :: FreeRun(bs, x, n)) <==> (exists b :: b in bs && b.free && b.length >= n)
  {
    if b :| b in bs && b.free && b.length >= n {
      assert FreeRun(bs, b.addr, n);
    }
    if x :| FreeRun(bs, x, n) {
      assert FreeByte(bs, x);
      var b :| b in bs && b.free && b.addr <= x < b.End();
      AfterFree(bs, s, e, b);
      assert b.length >= n;
    }
  }

  /** No `n` consecutive bytes are free. */
  ghost predicate NoFreeRun(bs: seq<Block>, n: int) {
    forall x :: !FreeRun(bs, x, n)
  }

  lemma NoFreeRunIff(bs: seq<Block>, s: int, e: int, n: int)
    requires Tiles(bs, s, e) && Merged(bs) && n > 0
    ensures NoFreeRun(bs, n) <==> forall b :: b in bs ==> !(b.free && b.length >= n)
  {
    FreeRunIsBlock(bs, s, e, n);
  }

  ghost predicate LiveByte(bs: seq<Block>, y: int) {
    exists b :: b in Live(bs) && b.addr <= y < b.End()
  }

  /** Every byte of a tiled heap is in a free block or in an allocated one, and not in both. */
  lemma {:induction false} FreeByteIff(bs: seq<Block>, s: int, e: int, y: int)
    requires Tiles(bs, s, e)
    ensures FreeByte(bs, y) <==> s <= y < e && !LiveByte(bs, y)
  {
    TilesBounds(bs, s, e);
    if s <= y < e {
      var rest := bs[1..];
      assert bs == [bs[0]] + rest;
      TilesBounds(rest, bs[0].End(), e);
      if bs[0].End() <= y {
        FreeByteIff(rest, bs[0].End(), e, y);
        FreeInRest(bs, s, e, y);
        assert LiveByte(bs, y) <==> LiveByte(rest, y);
      }
    }
  }

  // ----- malloc -----

  /** What malloc makes of the free block `b` for a request of full length `n`:
      the request is carved from its tail, unless the rest could not hold more
      than a tag. */
  function Cut(b: Block, n: int): seq<Block> {
    if b.length - n > TAG then [Block(b.addr, b.length - n, true), Block(b.addr + b.length - n, n, false)]
    else [Block(b.addr, b.length, false)]
  }

  /** The allocated part, the last of the cut. */
  function Carved(b: Block, n: int): Block {
    if b.length - n > TAG then Block(b.addr + b.length - n, n, false) else Block(b.addr, b.length, false)
  }

  lemma TilesMiddle(pre: seq<Block>, mid: seq<Block>, mid': seq<Block>, post: seq<Block>, s: int, e: int)
    requires Tiles(pre + mid + post, s, e)
    requires forall m, m' :: Tiles(mid, m, m') ==> Tiles(mid', m, m')
    ensures Tiles(pre + mid' + post, s, e)
  {
    TilesSplit(pre + mid, post, s, e);
    var m' := EndOf(pre + mid, s);
    TilesSplit(pre, mid, s, m');
    TilesConcat(pre, mid', s, EndOf(pre, s), m');
    TilesConcat(pre + mid', post, s, m', e);
  }

  lemma TilesOne(b: Block, m: int, e: int)
    ensures Tiles([b], m, e) <==> b.addr == m && b.End() == e && b.length >= TAG
  {
    assert [b][1..] == [];
  }

  lemma TilesTwo(b: Block, c: Block, m: int, e: int)
    ensures Tiles([b, c], m, e) <==>
            b.addr == m && b.End() == c.addr && c.End() == e && b.length >= TAG && c.length >= TAG
  {
    assert [b, c][1..] == [c];
    TilesOne(c, b.End(), e);
  }

  lemma CutTiles(b: Block, n: int, m: int, e: int)
    requires TAG <= n <= b.length && Tiles([b], m, e)
    ensures Tiles(Cut(b, n), m, e)
  {
    TilesOne(b, m, e);
    if b.length - n > TAG {
      TilesTwo(Cut(b, n)[0], Cut(b, n)[1], m, e);
    } else {
      TilesOne(Cut(b, n)[0], m, e);
    }
  }

  lemma MergedThree(pre: seq<Block>, mid: seq<Block>, post: seq<Block>)
    requires mid != []
    ensures Merged(pre + mid + post) <==>
            && Merged(pre) && Merged(mid) && Merged(post)
            && !(EndsFree(pre) && StartsFree(mid)) && !(EndsFree(mid) && StartsFree(post))
  {
    MergedConcat(pre + mid, post);
    MergedConcat(pre, mid);
  }

  lemma MergedOne(b: Block)
    ensures Merged([b]) && (StartsFree([b]) <==> b.free) && (EndsFree([b]) <==> b.free)
  {
    assert [b][1..] == [];
  }

  lemma MergedTwo(b: Block, c: Block)
    ensures Merged([b, c]) <==> !(b.free && c.free)
  {
    assert [b, c][1..] == [c];
    MergedOne(c);
  }

  /** Cutting a free block keeps the list tiled and merged. */
  lemma CutKeeps(pre: seq<Block>, b: Block, post: seq<Block>, n: int, s: int, e: int)
    requires Tiles(pre + [b] + post, s, e) && Merged(pre + [b] + post)
    requires b.free && TAG <= n <= b.length
    ensures Tiles(pre + Cut(b, n) + post, s, e) && Merged(pre + Cut(b, n) + post)
  {
    forall m, m' | Tiles([b], m, m')
      ensures Tiles(Cut(b, n), m, m')
    {
      CutTiles(b, n, m, m');
    }
    TilesMiddle(pre, [b], Cut(b, n), post, s, e);
    MergedThree(pre, [b], post);
    MergedOne(b);
    MergedThree(pre, Cut(b, n), post);
    if b.length - n > TAG {
      MergedTwo(Cut(b, n)[0], Cut(b, n)[1]);
    } else {
      MergedOne(Cut(b, n)[0]);
    }
  }

  /** Cutting adds exactly the carved block to the live ones, out of free memory. */
  lemma CutLive(pre: seq<Block>, b: Block, post: seq<Block>, n: int, s: int, e: int)
    requires Tiles(pre + [b] + post, s, e) && b.free && TAG <= n <= b.length
    ensures var was := pre + [b] + post;
            && Live(pre + Cut(b, n) + post) == Live(was) + {Carved(b, n)}
            && Carved(b, n) !in Live(was)
            && FreeRun(was, Carved(b, n).addr, Carved(b, n).length)
  {
    var was, now := pre + [b] + post, pre + Cut(b, n) + post;
    var c := Carved(b, n);
    assert b in was;
    forall y | c.addr <= y < c.End()
      ensures FreeByte(was, y)
    {
      assert b.addr <= y < b.End();
    }
    if c in Live(was) { OneBlockPerByte(was, s, e, b, c, c.addr); }
    forall x
      ensures x in Live(now) <==> x in Live(was) || x == c
    {
      assert x in now <==> x in pre || x in Cut(b, n) || x in post;
      assert x in was <==> x in pre || x == b || x in post;
    }
  }

  // ----- free -----

  /** Two free neighbours become one block. */
  function Join(b: Block, c: Block): Block {
    Block(b.addr, b.length + c.length, true)
  }

  lemma JoinTiles(pre: seq<Block>, b: Block, c: Block, post: seq<Block>, s: int, e: int)
    requires Tiles(pre + [b, c] + post, s, e)
    ensures Tiles(pre + [Join(b, c)] + post, s, e)
  {
    forall m, m' | Tiles([b, c], m, m')
      ensures Tiles([Join(b, c)], m, m')
    {
      TilesTwo(b, c, m, m');
      TilesOne(Join(b, c), m, m');
    }
    TilesMiddle(pre, [b, c], [Join(b, c)], post, s, e);
  }

  /** Only `mid` differs: as many live blocks elsewhere as before. */
  lemma LiveMiddle(pre: seq<Block>, mid: seq<Block>, mid': seq<Block>, post: seq<Block>)
    requires Live(mid) == Live(mid')
    ensures Live(pre + mid + post) == Live(pre + mid' + post)
  {
    forall x
      ensures x in Live(pre + mid + post) <==> x in Live(pre + mid' + post)
    {
      assert x in pre + mid + post <==> x in pre || x in mid || x in post;
      assert x in pre + mid' + post <==> x in pre || x in mid' || x in post;
      assert x in Live(mid) <==> x in Live(mid');
    }
  }

  // ----- canonical form -----

  /** The live blocks determine the whole list: two tiled and merged lists over one
      heap with the same live blocks are equal. */
  lemma {:induction false} LiveDetermines(a: seq<Block>, b: seq<Block>, s: int, e: int)
    requires Tiles(a, s, e) && Tiles(b, s, e) && Merged(a) && Merged(b) && Live(a) == Live(b)
    ensures a == b
  {
    TilesBounds(a, s, e);
    TilesBounds(b, s, e);
    if a != [] {
      HeadsAgree(a, b, s, e);
      TailLive(a, s, e);
      TailLive(b, s, e);
      LiveDetermines(a[1..], b[1..], a[0].End(), e);
    }
  }

  lemma TailLive(a: seq<Block>, s: int, e: int)
    requires a != [] && Tiles(a, s, e)
    ensures Live(a[1..]) == Live(a) - {a[0]}
  {
    TilesBounds(a[1..], a[0].End(), e);
    assert forall x :: x in a <==> x == a[0] || x in a[1..];
  }

  lemma HeadsAgree(a: seq<Block>, b: seq<Block>, s: int, e: int)
    requires a != [] && b != [] && Tiles(a, s, e) && Tiles(b, s, e) && Merged(a) && Merged(b) && Live(a) == Live(b)
    ensures a[0] == b[0]
  {
    LiveHead(a, b, s, e);
    LiveHead(b, a, s, e);
    if a[0].free && b[0].free {
      FreeHeadsAgree(a, b, s, e);
      FreeHeadsAgree(b, a, s, e);
    }
  }

  /** An allocated head is the head of both lists. */
  lemma LiveHead(a: seq<Block>, b: seq<Block>, s: int, e: int)
    requires a != [] && b != [] && Tiles(a, s, e) && Tiles(b, s, e) && Live(a) == Live(b)
    ensures !a[0].free ==> a[0] == b[0]
  {
    if !a[0].free {
      assert a[0] in Live(a);
      assert a[0] in b;
      TilesBounds(b[1..], b[0].End(), e);
    }
  }

  lemma FreeHeadsAgree(a: seq<Block>, b: seq<Block>, s: int, e: int)
    requires a != [] && b != [] && Tiles(a, s, e) && Tiles(b, s, e) && Merged(a) && Live(a) == Live(b)
    requires a[0].free && b[0].free
    ensures a[0].length >= b[0].length
  {
    TilesBounds(b[1..], b[0].End(), e);
    TilesBounds(a[1..], a[0].End(), e);
    if a[1..] != [] {
      var next := a[1..][0];
      assert next in a && next in Live(a);
      assert next in b;
    }
  }

  /** With nothing allocated, one block of the original size remains. */
  lemma AllFreeIsOneBlock(bs: seq<Block>, s: int, e: int)
    requires Tiles(bs, s, e) && Merged(bs) && s + TAG <= e && Live(bs) == {}
    ensures bs == [Block(s, e - s, true)]
  {
    var one := [Block(s, e - s, true)];
    TilesOne(one[0], s, e);
    MergedOne(one[0]);
    assert Live(one) == {};
    LiveDetermines(bs, one, s, e);
  }

  // ----- alignment -----

  /** Every block ends a multiple of 4 bytes before the end of the heap. */
  ghost predicate Spaced(bs: seq<Block>, s: int, e: int) {
    forall b :: b in bs ==> (e - b.End()) % 4 == 0 && (b.addr == s || (e - b.addr) % 4 == 0)
  }

  lemma CutSpaced(pre: seq<Block>, b: Block, post: seq<Block>, n: int, s: int, e: int)
    requires Spaced(pre + [b] + post, s, e) && n % 4 == 0
    ensures Spaced(pre + Cut(b, n) + post, s, e)
    ensures Carved(b, n).addr == s || (e - Carved(b, n).addr) % 4 == 0
  {
    assert b in pre + [b] + post;
    forall x | x in pre + Cut(b, n) + post
      ensures (e - x.End()) % 4 == 0 && (x.addr == s || (e - x.addr) % 4 == 0)
    {
      if x in pre || x in post { assert x in pre + [b] + post; }
    }
  }

  lemma DataAligned(addr: int, s: int, size: int)
    requires addr == s || (s + size - addr) % 4 == 0
    ensures s % 4 == 0 ==> ((addr + TAG) % 4 == 0 <==> size % 4 == 0 || addr == s)
  {
  }

  lemma JoinSpaced(pre: seq<Block>, b: Block, c: Block, post: seq<Block>, s: int, e: int)
    requires Spaced(pre + [b, c] + post, s, e) && b.End() == c.addr
    ensures Spaced(pre + [Join(b, c)] + post, s, e)
  {
    var was := pre + [b, c] + post;
    assert b in was && c in was;
    forall x | x in pre + [Join(b, c)] + post
      ensures (e - x.End()) % 4 == 0 && (x.addr == s || (e - x.addr) % 4 == 0)
    {
      if x in pre || x in post { assert x in was; }
    }
  }

  // ----- the tags in memory -----

  /** The list of tag addresses and the words at these addresses stand for the blocks. */
  ghost predicate Stored(list: seq<int>, memory: map<int, bv32>, bs: seq<Block>) {
    && |list| == |bs| && NoDup(list)
    && (forall i :: 0 <= i < |bs| ==> list[i] == bs[i].addr && HasTag(memory, bs[i]))
  }

  ghost predicate HasTag(memory: map<int, bv32>, b: Block) {
    0 <= b.length < LENGTH_LIMIT && b.addr in memory && memory[b.addr] == Tag(b.length, b.free)
  }

  /** A block's tag is written again. */
  lemma StoredUpdate(list: seq<int>, memory: map<int, bv32>, bs: seq<Block>, i: int, b: Block)
    requires Stored(list, memory, bs) && 0 <= i < |bs| && b.addr == bs[i].addr && 0 <= b.length < LENGTH_LIMIT
    ensures Stored(list, memory[b.addr := Tag(b.length, b.free)], bs[i := b])
  {
    var memory', bs' := memory[b.addr := Tag(b.length, b.free)], bs[i := b];
    forall j | 0 <= j < |bs'|
      ensures list[j] == bs'[j].addr && HasTag(memory', bs'[j])
    {
      if j != i { assert list[j] != list[i]; }
    }
  }

  /** A block leaves the list. */
  lemma StoredRemove(list: seq<int>, memory: map<int, bv32>, bs: seq<Block>, i: int)
    requires Stored(list, memory, bs) && 0 <= i < |bs|
    ensures Stored(list[..i] + list[i + 1..], memory, bs[..i] + bs[i + 1..])
  {
  }

  /** A new tag is written where none is, and its block comes to place `i`. */
  lemma StoredInsert(list: seq<int>, memory: map<int, bv32>, bs: seq<Block>, i: int, b: Block)
    requires Stored(list, memory, bs) && 0 <= i <= |bs| && b.addr !in list && 0 <= b.length < LENGTH_LIMIT
    ensures Stored(list[..i] + [b.addr] + list[i..], memory[b.addr := Tag(b.length, b.free)], bs[..i] + [b] + bs[i..])
  {
    var memory' := memory[b.addr := Tag(b.length, b.free)];
    forall j | 0 <= j < |bs|
      ensures HasTag(memory', bs[j])
    {
      assert list[j] in list;
    }
  }

  /** In a tiled heap no tag lies inside another block. */
  lemma {:induction false} NoTagInside(bs: seq<Block>, s: int, e: int, i: int, j: int)
    requires Tiles(bs, s, e) && 0 <= i < |bs| && 0 <= j < |bs|
    ensures bs[i].addr <= bs[j].addr < bs[i].End() ==> i == j
  {
    if i == 0 && j > 0 {
      TilesBounds(bs[1..], bs[0].End(), e);
      assert bs[j] in bs[1..];
    } else if j == 0 && i > 0 {
      TilesBounds(bs[1..], bs[0].End(), e);
      assert bs[i] in bs[1..];
    } else if i > 0 && j > 0 {
      NoTagInside(bs[1..], bs[0].End(), e, i - 1, j - 1);
    }
  }

  // ----- the heap -----

  class HeapState {
    const start: int
    const size: int
    /** The list `blocks`, by the addresses of the tags. */
    var list: seq<int>
    /** The words of the heap, by address. */
    var memory: map<int, bv32>
    /** The blocks that list and tags stand for. */
    ghost var blocks: seq<Block>

    /** The list is in address order, tiles the heap exactly, and is merged; the tags
        in memory say so. */
    ghost predicate Valid()
      reads this
    {
      && TAG <= size < LENGTH_LIMIT
      && Tiles(blocks, start, start + size) && Merged(blocks) && Spaced(blocks, start, start + size)
      && InMemory()
    }

    ghost predicate InMemory()
      reads this
    {
      && Stored(list, memory, blocks)
      && (forall a :: start <= a < start + size ==> a in memory)
    }

    /** `kernel_heap_init`, in memory that may hold anything */
    constructor (start: int, size: int, memory: map<int, bv32>)
      requires TAG <= size < LENGTH_LIMIT && forall a :: start <= a < start + size ==> a in memory
      ensures Valid() && this.start == start && this.size == size && blocks == [Block(start, size, true)]
    {
      this.start, this.size := start, size;
      this.memory := memory[start := FREE_MASK | ToWord(size)];
      list := [start];
      blocks := [Block(start, size, true)];
      new;
      TilesOne(blocks[0], start, start + size);
      MergedOne(blocks[0]);
    }

    /** `get_block_free` and `get_block_length` of block `i` */
    method ReadTag(i: int) returns (free: bool, length: int)
      requires Stored(list, memory, blocks) && 0 <= i < |blocks|
      ensures free == blocks[i].free && length == blocks[i].length
    {
      assert HasTag(memory, blocks[i]);
      TagReads(blocks[i].length, blocks[i].free);
      free, length := GetFree(memory[list[i]]), LengthOf(memory[list[i]]);
    }

    /** `set_block_length` of block `i` */
    method SetBlockLength(i: int, length: nat)
      requires InMemory() && 0 <= i < |blocks| && length < LENGTH_LIMIT
      modifies this`memory, this`blocks
      ensures InMemory() && blocks == old(blocks)[i := old(blocks)[i].(length := length)]
    {
      ghost var b := blocks[i];
      assert HasTag(memory, b);
      TagSetLength(b.length, b.free, length);
      StoredUpdate(list, memory, blocks, i, b.(length := length));
      memory := memory[list[i] := SetLength(memory[list[i]], ToWord(length))];
      blocks := blocks[i := b.(length := length)];
    }

    /** `set_block_free` of block `i` */
    method SetBlockFree(i: int, free: bool)
      requires InMemory() && 0 <= i < |blocks|
      modifies this`memory, this`blocks
      ensures InMemory() && blocks == old(blocks)[i := old(blocks)[i].(free := free)]
    {
      ghost var b := blocks[i];
      assert HasTag(memory, b);
      TagSetFree(b.length, b.free, free);
      StoredUpdate(list, memory, blocks, i, b.(free := free));
      memory := memory[list[i] := SetFree(memory[list[i]], free)];
      blocks := blocks[i := b.(free := free)];
    }

    /** A tag is made of whatever word is at `addr`, and its block put behind block `i`. */
    method AddBlock(i: int, addr: int, length: nat)
      requires InMemory() && 0 <= i < |blocks| && length < LENGTH_LIMIT
      requires start <= addr < start + size && addr !in list
      modifies this
      ensures InMemory() && blocks == old(blocks)[..i + 1] + [Block(addr, length, false)] + old(blocks)[i + 1..]
    {
      ghost var b := Block(addr, length, false);
      TagFromAny(memory[addr], length);
      StoredInsert(list, memory, blocks, i + 1, b);
      memory := memory[addr := SetFree(memory[addr], false)];
      memory := memory[addr := SetLength(memory[addr], ToWord(length))];
      list := list[..i + 1] + [addr] + list[i + 1..];
      blocks := blocks[..i + 1] + [b] + blocks[i + 1..];
    }

    /** `list_del` of block `i` */
    method RemoveBlock(i: int)
      requires InMemory() && 0 <= i < |blocks|
      modifies this`list, this`blocks
      ensures InMemory() && blocks == old(blocks)[..i] + old(blocks)[i + 1..]
    {
      StoredRemove(list, memory, blocks, i);
      list := list[..i] + list[i + 1..];
      blocks := blocks[..i] + blocks[i + 1..];
    }

    /** The search loop of `malloc`. */
    method FindFit(n: int) returns (i: int)
      requires Stored(list, memory, blocks)
      ensures 0 <= i <= |blocks|
      ensures i < |blocks| ==> FirstFit(blocks, i, n)
      ensures i == |blocks| ==> forall b :: b in blocks ==> !(b.free && b.length >= n)
    {
      i := 0;
      while i < |list|
        invariant 0 <= i <= |list|
        invariant forall j :: 0 <= j < i ==> !(blocks[j].free && blocks[j].length >= n)
      {
        var free, length := ReadTag(i);
        if free && length >= n {
          return;
        }
        i := i + 1;
      }
    }

    /** `malloc`: the first free block that is long enough is cut. */
    method Malloc(request: int) returns (r: Option<int>)
      requires Valid() && 0 <= request <= 0x1_0000_0000 - 16
      modifies this
      ensures Valid()
      ensures r.None? <==> NoFreeRun(old(blocks), RequestLength(request))
      ensures r.None? ==> blocks == old(blocks)
      ensures r.Some? ==> exists i, c :: CutAt(old(blocks), i, c, request, blocks, r.value)
    {
      RequestFits(request);
      var n := RequestLength(request);
      NoFreeRunIff(blocks, start, start + size, n);
      var i := FindFit(n);
      if i == |list| {
        return None;
      }
      assert blocks[i] in blocks;
      ghost var c := Carved(blocks[i], n);
      var data := UseBlock(i, n, request);
      assert CutAt(old(blocks), i, c, request, blocks, data);
      r := Some(data);
    }

    /** The first fit is used for the request. */
    method UseBlock(i: int, n: int, ghost request: int) returns (data: int)
      requires Valid() && 0 <= request <= 0x1_0000_0000 - 16 && n == RequestLength(request)
      requires 0 <= i < |blocks| && FirstFit(blocks, i, n)
      modifies this
      ensures Valid() && CutAt(old(blocks), i, Carved(old(blocks)[i], n), request, blocks, data)
    {
      RequestFits(request);
      CutFits(blocks, i, request, start, start + size);
      DataAligned(Carved(blocks[i], n).addr, start, size);
      data := CutBlock(i, n);
    }

    /** The two ways of using a fitting block, written tag by tag. */
    method CutBlock(i: int, n: int) returns (data: int)
      requires InMemory() && Tiles(blocks, start, start + size) && 0 <= i < |blocks|
      requires blocks[i].free && TAG <= n <= blocks[i].length
      modifies this
      ensures InMemory() && blocks == old(blocks)[..i] + Cut(old(blocks)[i], n) + old(blocks)[i + 1..]
      ensures data == Carved(old(blocks)[i], n).addr + TAG
    {
      var _, length := ReadTag(i);
      var a := list[i];
      assert a == blocks[i].addr;
      if length - n > TAG {
        InnerAddress(blocks, list, start, start + size, i, length - n);
        SetBlockLength(i, length - n);
        var _, rest := ReadTag(i);
        AddBlock(i, a + rest, n);
        data := a + rest + TAG;
      } else {
        SetBlockFree(i, false);
        data := a + TAG;
      }
    }

    /**
     Block `i` is the first fit, and `c`, with data at `data`, is made of it.  In an aligned
     heap the data is 4-aligned exactly if the size of the heap is a multiple of 4 or the
     first block was used whole.
     */
    ghost predicate CutAt(was: seq<Block>, i: int, c: Block, request: int, now: seq<Block>, data: int)
      reads this
    {
      && 0 <= request <= 0x1_0000_0000 - 16
      && 0 <= i < |was| && FirstFit(was, i, RequestLength(request))
      && Gives(was, now, was[i], c, request) && data == c.addr + TAG
      && (start % 4 == 0 ==> (data % 4 == 0 <==> size % 4 == 0 || data == start + TAG))
    }

    /** `free` of the data of a live block */
    method Free(data: int, ghost b: Block)
      requires Valid() && b in Live(blocks) && data == b.addr + TAG
      modifies this
      ensures Valid() && Live(blocks) == Live(old(blocks)) - {b}
      ensures forall y :: FreeByte(old(blocks), y) <==> FreeByte(blocks, y) && !Within(b, y)
    {
      ghost var was := blocks;
      var i := BlockAt(data - TAG, b);
      MarkFree(blocks, i, start, start + size);
      SetBlockFree(i, true);
      i := MergePrevious(i);
      MergeNext(i);
      FreeBytesLeft(blocks, was, b, start, start + size);
    }

    /** `container_of`, and the place in the list, which the C code knows from the node. */
    method BlockAt(addr: int, ghost b: Block) returns (i: int)
      requires Valid() && b in blocks && addr == b.addr
      ensures 0 <= i < |blocks| && blocks[i] == b
    {
      ghost var k :| 0 <= k < |blocks| && blocks[k] == b;
      assert list[k] == addr;
      i := IndexOf(list, addr);
    }

    /** The block before is merged in, if free. */
    method MergePrevious(i: int) returns (i': int)
      requires InMemory() && 0 <= i < |blocks| && MergedBut(blocks, i) && size < LENGTH_LIMIT
      requires Tiles(blocks, start, start + size) && Spaced(blocks, start, start + size)
      modifies this
      ensures InMemory() && 0 <= i' < |blocks| && MergedBut(blocks, i')
      ensures Tiles(blocks, start, start + size) && Spaced(blocks, start, start + size)
      ensures Live(blocks) == Live(old(blocks)) && (i' > 0 ==> !blocks[i' - 1].free)
    {
      i' := i;
      if i > 0 {
        var free, _ := ReadTag(i - 1);
        if free {
          JoinBefore(blocks, i, start, start + size);
          JoinTags(i - 1);
          i' := i - 1;
        }
      }
    }

    /** The block after is merged in, if free. */
    method MergeNext(i: int)
      requires InMemory() && 0 <= i < |blocks| && MergedBut(blocks, i) && size < LENGTH_LIMIT
      requires Tiles(blocks, start, start + size) && Spaced(blocks, start, start + size)
      requires i > 0 ==> !blocks[i - 1].free
      modifies this
      ensures InMemory() && Merged(blocks) && Live(blocks) == Live(old(blocks))
      ensures Tiles(blocks, start, start + size) && Spaced(blocks, start, start + size)
    {
      if i + 1 < |list| {
        var free, _ := ReadTag(i + 1);
        if free {
          JoinAfter(blocks, i, start, start + size);
          JoinTags(i);
        }
      }
      MergedAround(blocks, i);
    }

    /** Block `i` takes in the length of the next one, which leaves the list. */
    method JoinTags(i: int)
      requires InMemory() && 0 <= i && i + 1 < |blocks| && blocks[i].free
      requires blocks[i].length + blocks[i + 1].length < LENGTH_LIMIT
      modifies this
      ensures InMemory()
      ensures blocks == old(blocks)[..i] + [Join(old(blocks)[i], old(blocks)[i + 1])] + old(blocks)[i + 2..]
    {
      ghost var was := blocks;
      var _, length := ReadTag(i);
      var _, more := ReadTag(i + 1);
      SetBlockLength(i, length + more);
      RemoveBlock(i + 1);
      assert was[i].(length := length + more) == Join(was[i], was[i + 1]);
    }
  }

  /** An address inside a block is no tag's. */
  lemma InnerAddress(bs: seq<Block>, list: seq<int>, s: int, e: int, i: int, offset: int)
    requires Tiles(bs, s, e) && 0 <= i < |bs| && 0 < offset < bs[i].length
    requires |list| == |bs| && forall j :: 0 <= j < |bs| ==> list[j] == bs[j].addr
    ensures bs[i].addr + offset !in list && s <= bs[i].addr + offset < e
  {
    forall j | 0 <= j < |bs|
      ensures bs[j].addr != bs[i].addr + offset
    {
      NoTagInside(bs, s, e, i, j);
    }
    TilesBounds(bs, s, e);
    assert bs[i] in bs;
  }

  /** The first free block that holds `n` bytes. */
  ghost predicate FirstFit(bs: seq<Block>, i: int, n: int)
    requires 0 <= i < |bs|
  {
    && bs[i].free && bs[i].length >= n
    && forall j :: 0 <= j < i ==> !(bs[j].free && bs[j].length >= n)
  }

  /** The bytes of `c`. */
  ghost predicate Within(c: Block, y: int) {
    c.addr <= y < c.End()
  }

  /**
   The allocation `c` is the one new live block.  It has room for the request and little
   more: exactly the rounded length if the block it comes from exceeds that by more than a
   tag.  It ends where that block, `fit`, ended, and all other free memory stays free.
   */
  ghost predicate Gives(was: seq<Block>, now: seq<Block>, fit: Block, c: Block, request: int)
    requires 0 <= request < 0x1_0000_0000
  {
    && c !in Live(was) && Live(now) == Live(was) + {c}
    && request + TAG <= c.length <= RequestLength(request) + TAG
    && (fit.length > RequestLength(request) + TAG ==> c.length == RequestLength(request))
    && fit.addr <= c.addr && c.End() == fit.End()
    && FreeRun(was, c.addr, c.length)
    && (forall y :: FreeByte(now, y) <==> FreeByte(was, y) && !Within(c, y))
  }

  /** A new live block takes away its own bytes from the free ones, and no others. */
  lemma FreeBytesLeft(was: seq<Block>, now: seq<Block>, c: Block, s: int, e: int)
    requires Tiles(was, s, e) && Tiles(now, s, e) && Live(now) == Live(was) + {c}
    ensures forall y :: FreeByte(now, y) <==> FreeByte(was, y) && !Within(c, y)
  {
    forall y
      ensures FreeByte(now, y) <==> FreeByte(was, y) && !Within(c, y)
    {
      FreeByteIff(was, s, e, y);
      FreeByteIff(now, s, e, y);
      assert c in Live(now);
      assert LiveByte(now, y) <==> LiveByte(was, y) || Within(c, y);
    }
  }

  /** Cutting the first fit keeps the list and gives the allocation. */
  lemma CutFits(bs: seq<Block>, i: int, request: int, s: int, e: int)
    requires Tiles(bs, s, e) && Merged(bs) && Spaced(bs, s, e) && 0 <= request <= 0x1_0000_0000 - 16
    requires 0 <= i < |bs| && FirstFit(bs, i, RequestLength(request))
    ensures var n := RequestLength(request);
            var now := bs[..i] + Cut(bs[i], n) + bs[i + 1..];
            && Tiles(now, s, e) && Merged(now) && Spaced(now, s, e)
            && Gives(bs, now, bs[i], Carved(bs[i], n), request)
            && (Carved(bs[i], n).addr == s || (e - Carved(bs[i], n).addr) % 4 == 0)
  {
    RequestFits(request);
    var n := RequestLength(request);
    assert bs == bs[..i] + [bs[i]] + bs[i + 1..];
    CutKeeps(bs[..i], bs[i], bs[i + 1..], n, s, e);
    CutLive(bs[..i], bs[i], bs[i + 1..], n, s, e);
    CutSpaced(bs[..i], bs[i], bs[i + 1..], n, s, e);
    FreeBytesLeft(bs, bs[..i] + Cut(bs[i], n) + bs[i + 1..], Carved(bs[i], n), s, e);
  }

  /** The list is merged but for the free block at `i`, which may have free neighbours. */
  ghost predicate MergedBut(bs: seq<Block>, i: int)
    requires 0 <= i < |bs|
  {
    bs[i].free && Merged(bs[..i]) && Merged(bs[i + 1..])
  }

  lemma MergedAround(bs: seq<Block>, i: int)
    requires 0 <= i < |bs| && MergedBut(bs, i)
    requires (i > 0 ==> !bs[i - 1].free) && (i + 1 < |bs| ==> !bs[i + 1].free)
    ensures Merged(bs)
  {
    MergedOne(bs[i]);
    MergedThree(bs[..i], [bs[i]], bs[i + 1..]);
    assert bs == bs[..i] + [bs[i]] + bs[i + 1..];
  }

  /** `set_block_free(block, true)` */
  lemma MarkFree(bs: seq<Block>, i: int, s: int, e: int)
    requires 0 <= i < |bs| && Tiles(bs, s, e) && Merged(bs) && !bs[i].free
    ensures var bs' := bs[i := Block(bs[i].addr, bs[i].length, true)];
            Tiles(bs', s, e) && MergedBut(bs', i) && Live(bs') == Live(bs) - {bs[i]}
  {
    var b := bs[i];
    var b' := Block(b.addr, b.length, true);
    var pre, post := bs[..i], bs[i + 1..];
    var bs' := bs[i := b'];
    assert bs == pre + [b] + post && bs' == pre + [b'] + post;
    forall m, m' | Tiles([b], m, m')
      ensures Tiles([b'], m, m')
    {
      TilesOne(b, m, m');
      TilesOne(b', m, m');
    }
    TilesMiddle(pre, [b], [b'], post, s, e);
    MergedThree(pre, [b], post);
    assert bs'[..i] == pre && bs'[i + 1..] == post;
    forall x
      ensures x in Live(bs') <==> x in Live(bs) && x != b
    {
      assert x in bs <==> x in pre || x == b || x in post;
      assert x in bs' <==> x in pre || x == b' || x in post;
      if x == b && x in bs' { OnlyOnce(pre, b, b', post, s, e); }
    }
  }

  /** A live block occurs at one place of the list only. */
  lemma OnlyOnce(pre: seq<Block>, b: Block, b': Block, post: seq<Block>, s: int, e: int)
    requires Tiles(pre + [b] + post, s, e) && !b.free && b'.free
    ensures b !in pre + [b'] + post
  {
    TilesSplit(pre + [b], post, s, e);
    var m' := EndOf(pre + [b], s);
    TilesSplit(pre, [b], s, m');
    TilesOne(b, EndOf(pre, s), m');
    TilesBounds(pre, s, EndOf(pre, s));
    TilesBounds(post, m', e);
  }

  lemma {:induction false} Adjacent(bs: seq<Block>, s: int, e: int, i: int)
    requires Tiles(bs, s, e) && 0 <= i && i + 1 < |bs|
    ensures bs[i].End() == bs[i + 1].addr
  {
    if i > 0 { Adjacent(bs[1..], bs[0].End(), e, i - 1); }
  }

  lemma JoinLive(bs: seq<Block>, i: int, s: int, e: int)
    requires 0 <= i && i + 1 < |bs| && Tiles(bs, s, e) && Spaced(bs, s, e) && bs[i].free && bs[i + 1].free
    ensures var bs' := bs[..i] + [Join(bs[i], bs[i + 1])] + bs[i + 2..];
            Tiles(bs', s, e) && Spaced(bs', s, e) && Live(bs') == Live(bs)
    ensures bs[i].length + bs[i + 1].length <= e - s
  {
    var b, c := bs[i], bs[i + 1];
    assert bs == bs[..i] + [b, c] + bs[i + 2..];
    JoinTiles(bs[..i], b, c, bs[i + 2..], s, e);
    Adjacent(bs, s, e, i);
    JoinSpaced(bs[..i], b, c, bs[i + 2..], s, e);
    TilesBounds(bs[..i] + [Join(b, c)] + bs[i + 2..], s, e);
    assert Join(b, c) in bs[..i] + [Join(b, c)] + bs[i + 2..];
    assert Live([b, c]) == Live([Join(b, c)]);
    LiveMiddle(bs[..i], [b, c], [Join(b, c)], bs[i + 2..]);
  }

  /** Merging with the free block before: what is left before it does not end free. */
  lemma JoinBefore(bs: seq<Block>, i: int, s: int, e: int)
    requires 0 < i < |bs| && Tiles(bs, s, e) && Spaced(bs, s, e) && MergedBut(bs, i) && bs[i - 1].free
    ensures bs[i - 1].length + bs[i].length <= e - s
    ensures var bs' := bs[..i - 1] + [Join(bs[i - 1], bs[i])] + bs[i + 1..];
            && Tiles(bs', s, e) && Spaced(bs', s, e) && MergedBut(bs', i - 1) && Live(bs') == Live(bs)
            && (i - 1 > 0 ==> !bs'[i - 2].free)
  {
    JoinLive(bs, i - 1, s, e);
    var bs' := bs[..i - 1] + [Join(bs[i - 1], bs[i])] + bs[i + 1..];
    assert bs[..i] == bs[..i - 1] + [bs[i - 1]];
    MergedConcat(bs[..i - 1], [bs[i - 1]]);
    assert bs'[..i - 1] == bs[..i - 1] && bs'[i..] == bs[i + 1..];
  }

  /** Merging with the free block after: what is left after it does not start free. */
  lemma JoinAfter(bs: seq<Block>, i: int, s: int, e: int)
    requires 0 <= i && i + 1 < |bs| && Tiles(bs, s, e) && Spaced(bs, s, e) && MergedBut(bs, i) && bs[i + 1].free
    ensures bs[i].length + bs[i + 1].length <= e - s
    ensures var bs' := bs[..i] + [Join(bs[i], bs[i + 1])] + bs[i + 2..];
            && Tiles(bs', s, e) && Spaced(bs', s, e) && MergedBut(bs', i) && Live(bs') == Live(bs)
            && (i + 1 < |bs'| ==> !bs'[i + 1].free)
  {
    JoinLive(bs, i, s, e);
    var bs' := bs[..i] + [Join(bs[i], bs[i + 1])] + bs[i + 2..];
    assert bs[i + 1..][1..] == bs[i + 2..];
    assert bs'[..i] == bs[..i] && bs'[i + 1..] == bs[i + 2..];
    if i + 1 < |bs'| { assert bs'[i + 1] == bs[i + 2] == bs[i + 2..][0]; }
  }

  /** The place of a tag in the list, which the C code knows from its node. */
  method IndexOf(list: seq<int>, addr: int) returns (i: int)
    requires addr in list
    ensures 0 <= i < |list| && list[i] == addr
  {
    i := 0;
    while list[i] != addr
      invariant 0 <= i < |list| && addr in list[i..]
      decreases |list| - i
    {
      i := i + 1;
    }
  }

  /** `malloc`, or `free` of the `k`th allocation still held. */
  datatype HeapOp = Malloc(request: int) | Free(k: nat)

  /** `data` are the pointers to the data of the live blocks `held`. */
  ghost predicate Holds(bs: seq<Block>, held: seq<Block>, data: seq<int>) {
    && |data| == |held| && NoDup(held)
    && (forall b :: b in Live(bs) <==> b in held)
    && (forall i :: 0 <= i < |held| ==> data[i] == held[i].addr + TAG)
  }

  method RunOp(h: HeapState, op: HeapOp, data: seq<int>, ghost held: seq<Block>)
    returns (data': seq<int>, ghost held': seq<Block>)
    requires h.Valid() && Holds(h.blocks, held, data)
    modifies h
    ensures h.Valid() && Holds(h.blocks, held', data')
  {
    data', held' := data, held;
    match op
    case Malloc(request) =>
      if 0 <= request <= 0x1_0000_0000 - 16 {
        ghost var was := h.blocks;
        var r := h.Malloc(request);
        if r.Some? {
          ghost var i, c :| h.CutAt(was, i, c, request, h.blocks, r.value);
          held' := held + [c];
          data' := data + [r.value];
        }
      }
    case Free(k) =>
      if k < |data| {
        h.Free(data[k], held[k]);
        held' := held[..k] + held[k + 1..];
        data' := data[..k] + data[k + 1..];
      }
  }

  /** Any run of allocations and frees keeps the heap tiled and merged, with the held
      allocations as its live blocks; when all are freed, in whatever order, one
      block of the original size remains. */
  method RunHeap(h: HeapState, ops: seq<HeapOp>) returns (data: seq<int>)
    requires h.Valid() && h.blocks == [Block(h.start, h.size, true)]
    modifies h
    ensures h.Valid() && |data| == |Live(h.blocks)|
    ensures forall b :: b in Live(h.blocks) ==> b.addr + TAG in data
    ensures forall p :: p in data ==> DataOfLive(h.blocks, p)
    ensures data == [] ==> h.blocks == [Block(h.start, h.size, true)]
  {
    ghost var held: seq<Block> := [];
    data := [];
    assert Live(h.blocks) == {};
    for n := 0 to |ops|
      invariant h.Valid() && Holds(h.blocks, held, data)
    {
      data, held := RunOp(h, ops[n], data, held);
    }
    LiveCount(Live(h.blocks), held);
    HeldIsLive(h.blocks, held, data);
    if data == [] {
      assert Live(h.blocks) == {};
      AllFreeIsOneBlock(h.blocks, h.start, h.start + h.size);
    }
  }

  /** `p` is the data of an allocated block. */
  ghost predicate DataOfLive(bs: seq<Block>, p: int) {
    exists b :: b in Live(bs) && p == b.addr + TAG
  }

  lemma HeldIsLive(bs: seq<Block>, held: seq<Block>, data: seq<int>)
    requires forall b :: b in Live(bs) <==> b in held
    requires |data| == |held| && forall i :: 0 <= i < |held| ==> data[i] == held[i].addr + TAG
    ensures forall b :: b in Live(bs) ==> b.addr + TAG in data
    ensures forall p :: p in data ==> DataOfLive(bs, p)
  {
    forall b | b in Live(bs)
      ensures b.addr + TAG in data
    {
      var i :| 0 <= i < |held| && held[i] == b;
      assert data[i] == b.addr + TAG;
    }
    forall p | p in data
      ensures DataOfLive(bs, p)
    {
      var i :| 0 <= i < |data| && data[i] == p;
      assert held[i] in Live(bs);
    }
  }

  lemma {:induction false} LiveCount(live: set<Block>, held: seq<Block>)
    requires NoDup(held) && forall b :: b in live <==> b in held
    ensures |live| == |held|
  {
    if held == [] {
      assert live == {};
    } else {
      var n := |held| - 1;
      assert held == held[..n] + [held[n]];
      LiveCount(live - {held[n]}, held[..n]);
    }
  }
}
