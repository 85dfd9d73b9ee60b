/**
 The theory of buddy blocks behind kernel/mm/page.c.

 A block of order `o` and index `i` consists of the minimum-size pages `p` with
 `Up(p, o) == i`, where `Up` halves a page number `o` times.  For a set `u` of
 unallocated pages, `Canonical(u, k, o, i)` says that block `(o, i)` lies inside
 `u` and that no larger aligned block around it does: the maximally coalesced
 decomposition of `u`, defined without reference to any allocator.
 */
module Buddy {

  datatype Block = Block(order: nat, idx: nat)

  /** The index of the order-`o` block that contains page `p`. */
  function Up(p: nat, o: nat): nat {
    if o == 0 then p else Up(p, o - 1) / 2
  }

  /** The first page of the block of order `o` and index `i`. */
  function Down(i: nat, o: nat): (p: nat)
    ensures Up(p, o) == i
    decreases o
  {
    if o == 0 then i else
    UpCompose(Down(2 * i, o - 1), o - 1, 1);
    Down(2 * i, o - 1)
  }

  lemma {:induction false} UpCompose(p: nat, a: nat, b: nat)
    ensures Up(Up(p, a), b) == Up(p, a + b)
  {
    if b > 0 { UpCompose(p, a, b - 1); }
  }

  /** `get_buddy_index` */
  function BuddyOf(i: nat): (b: nat)
    ensures b != i && b / 2 == i / 2
  {
    if i % 2 != 0 then i - 1 else i + 1
  }

  /** Taking the buddy twice comes back, and nothing else has that buddy. */
  lemma BuddyInvolution(i: nat, j: nat)
    ensures BuddyOf(BuddyOf(i)) == i && (BuddyOf(i) == BuddyOf(j) ==> i == j)
  {
  }

  ghost predicate InBlock(p: nat, o: nat, i: nat) {
    Up(p, o) == i
  }

  /** Every page of block `(o, i)` is in `u`. */
  ghost predicate Whole(u: set<nat>, o: nat, i: nat) {
    forall p: nat :: InBlock(p, o, i) ==> p in u
  }

  /** Block `(o, i)` is a maximal aligned block of `u`, for orders up to `k`. */
  ghost predicate Canonical(u: set<nat>, k: nat, o: nat, i: nat) {
    && o <= k
    && Whole(u, o, i)
    && (o < k ==> !Whole(u, o + 1, i / 2))
  }

  /** `v` is `u` without the pages of block `(o, i)`. */
  ghost predicate Outside(u: set<nat>, o: nat, i: nat, v: set<nat>) {
    forall p: nat :: p in v <==> p in u && !InBlock(p, o, i)
  }

  /** Aligned blocks nest: a block inside a whole block is whole. */
  lemma WholeInside(u: set<nat>, o: nat, i: nat, o': nat)
    requires o <= o' && Whole(u, o', Up(i, o' - o))
    ensures Whole(u, o, i)
  {
    forall p: nat | InBlock(p, o, i)
      ensures p in u
    {
      UpCompose(p, o, o' - o);
      assert InBlock(p, o', Up(i, o' - o));
    }
  }

  /** Two pages in one block of order `o` are in one block of every larger order. */
  lemma SameAbove(p: nat, q: nat, o: nat, o': nat)
    requires o <= o' && Up(p, o) == Up(q, o)
    ensures Up(p, o') == Up(q, o')
  {
    UpCompose(p, o, o' - o);
    UpCompose(q, o, o' - o);
  }

  /** Canonical blocks that share a page are the same block. */
  lemma CanonicalDisjoint(u: set<nat>, k: nat, o1: nat, i1: nat, o2: nat, i2: nat, p: nat)
    requires Canonical(u, k, o1, i1) && Canonical(u, k, o2, i2)
    requires InBlock(p, o1, i1) && InBlock(p, o2, i2)
    ensures o1 == o2 && i1 == i2
  {
    if o1 < o2 {
      NoLargerAround(u, k, o1, i1, o2, i2, p);
    } else if o2 < o1 {
      NoLargerAround(u, k, o2, i2, o1, i1, p);
    }
  }

  lemma NoLargerAround(u: set<nat>, k: nat, o1: nat, i1: nat, o2: nat, i2: nat, p: nat)
    requires o1 < o2 <= k && Canonical(u, k, o1, i1)
    requires InBlock(p, o1, i1) && InBlock(p, o2, i2)
    ensures !Whole(u, o2, i2)
  {
    UpCompose(p, o1 + 1, o2 - o1 - 1);
    if Whole(u, o2, i2) { WholeInside(u, o1 + 1, i1 / 2, o2); }
  }

  /**
   Removing the pages of one canonical block from `u` removes exactly that block
   from the decomposition.  Splitting, allocating and coalescing all rest on this.
   */
  lemma RemoveCanonicalBlock(u: set<nat>, k: nat, o: nat, i: nat, v: set<nat>)
    requires Canonical(u, k, o, i) && Outside(u, o, i, v)
    ensures forall o', i' ::
      Canonical(v, k, o', i') <==> Canonical(u, k, o', i') && !(o' == o && i' == i)
  {
    forall o': nat, i': nat
      ensures Canonical(v, k, o', i') <==> Canonical(u, k, o', i') && !(o' == o && i' == i)
    {
      if Canonical(u, k, o', i') && !(o' == o && i' == i) {
        OtherBlockStays(u, k, o, i, v, o', i');
      }
      if Canonical(v, k, o', i') {
        NoNewBlock(u, k, o, i, v, o', i');
      }
    }
  }

  lemma OtherBlockStays(u: set<nat>, k: nat, o: nat, i: nat, v: set<nat>, o': nat, i': nat)
    requires Canonical(u, k, o, i) && Outside(u, o, i, v)
    requires Canonical(u, k, o', i') && !(o' == o && i' == i)
    ensures Canonical(v, k, o', i')
  {
    forall p: nat | InBlock(p, o', i')
      ensures p in v
    {
      if InBlock(p, o, i) { CanonicalDisjoint(u, k, o, i, o', i', p); }
    }
    if o' < k {
      var p: nat :| InBlock(p, o' + 1, i' / 2) && p !in u;
      assert p !in v;
    }
  }

  lemma NoNewBlock(u: set<nat>, k: nat, o: nat, i: nat, v: set<nat>, o': nat, i': nat)
    requires Canonical(u, k, o, i) && Outside(u, o, i, v)
    requires Canonical(v, k, o', i')
    ensures Canonical(u, k, o', i') && !(o' == o && i' == i)
  {
    var q := Down(i', o');
    assert InBlock(q, o', i') && q in v;
    assert Whole(u, o', i');
    if o' < k && Whole(u, o' + 1, i' / 2) {
      var p: nat :| InBlock(p, o' + 1, i' / 2) && p !in v;
      assert InBlock(p, o, i);
      if o' < o {
        SameAbove(p, q, o' + 1, o);
        assert false;
      } else {
        NoLargerAround(u, k, o, i, o' + 1, i' / 2, p);
        assert false;
      }
    }
  }

  /** Climb from a whole block to the canonical block around it. */
  ghost function Climb(u: set<nat>, k: nat, o: nat, i: nat): (b: Block)
    requires o <= k && Whole(u, o, i)
    ensures o <= b.order <= k && b.idx == Up(i, b.order - o) && Canonical(u, k, b.order, b.idx)
    decreases k - o
  {
    if o == k || !Whole(u, o + 1, i / 2) then Block(o, i) else
    var b := Climb(u, k, o + 1, i / 2);
    assert Up(i, 1) == i / 2;
    UpCompose(i, 1, b.order - o - 1);
    b
  }

  /** Canonical blocks tile `u`: every page of `u` is in exactly one. */
  lemma CanonicalTiles(u: set<nat>, k: nat, p: nat)
    requires p in u
    ensures exists o: nat :: Canonical(u, k, o, Up(p, o))
    ensures forall o1: nat, o2: nat ::
      Canonical(u, k, o1, Up(p, o1)) && Canonical(u, k, o2, Up(p, o2)) ==> o1 == o2
  {
    assert Whole(u, 0, p) by {
      forall q: nat | InBlock(q, 0, p) ensures q in u { assert q == p; }
    }
    var b := Climb(u, k, 0, p);
    assert Canonical(u, k, b.order, Up(p, b.order));
    forall o1: nat, o2: nat | Canonical(u, k, o1, Up(p, o1)) && Canonical(u, k, o2, Up(p, o2))
      ensures o1 == o2
    {
      CanonicalDisjoint(u, k, o1, Up(p, o1), o2, Up(p, o2), p);
    }
  }

  /** An aligned block of order `o` is wholly unallocated somewhere iff the
      decomposition has a block of order at least `o`. */
  lemma WholeBlockIffCanonical(u: set<nat>, k: nat, o: nat)
    ensures (exists i: nat :: o <= k && Whole(u, o, i)) <==>
            (exists o', i: nat :: o <= o' && Canonical(u, k, o', i))
  {
    if i: nat :| o <= k && Whole(u, o, i) {
      var b := Climb(u, k, o, i);
      assert o <= b.order && Canonical(u, k, b.order, b.idx);
    }
    if o', i: nat :| o <= o' && Canonical(u, k, o', i) {
      WholeInside(u, o, Down(i, o' - o), o');
      assert Whole(u, o, Down(i, o' - o));
    }
  }

  /** Two whole buddies make their parent whole. */
  lemma HalvesMakeWhole(u: set<nat>, o: nat, i: nat)
    ensures Whole(u, o, i) && Whole(u, o, BuddyOf(i)) ==> Whole(u, o + 1, i / 2)
  {
    if Whole(u, o, i) && Whole(u, o, BuddyOf(i)) {
      forall p: nat | InBlock(p, o + 1, i / 2)
        ensures p in u
      {
        assert InBlock(p, o, i) || InBlock(p, o, BuddyOf(i));
      }
    }
  }

  /** No two buddies below the top order are both canonical. */
  lemma NoFreeBuddies(u: set<nat>, k: nat, o: nat, i: nat)
    requires o < k && Canonical(u, k, o, i)
    ensures !Canonical(u, k, o, BuddyOf(i))
  {
    HalvesMakeWhole(u, o, i);
  }

  /** If the parent of `(o, i)` is whole in `u`, its buddy is canonical in the rest. */
  lemma BuddyInRest(u: set<nat>, k: nat, o: nat, i: nat, v: set<nat>)
    requires o < k && Outside(u, o, i, v)
    ensures Whole(u, o + 1, i / 2) ==> Canonical(v, k, o, BuddyOf(i))
  {
    var first := Down(i, o);
    assert InBlock(first, o, i) && InBlock(first, o + 1, i / 2);
    if Whole(u, o + 1, i / 2) {
      forall p: nat | InBlock(p, o, BuddyOf(i))
        ensures p in v
      {
        assert InBlock(p, o + 1, i / 2);
      }
    }
  }

  /** When the buddy of `(o, i)` is not a canonical block of the rest, adding
      `(o, i)` makes it canonical. */
  lemma InsertedIsCanonical(u: set<nat>, k: nat, o: nat, i: nat, v: set<nat>)
    requires o <= k && Whole(u, o, i) && Outside(u, o, i, v)
    requires o < k ==> !Canonical(v, k, o, BuddyOf(i))
    ensures Canonical(u, k, o, i)
  {
    if o < k { BuddyInRest(u, k, o, i, v); }
  }

  /** The pages of `u` outside block `(o, i)`. */
  ghost function Rest(u: set<nat>, o: nat, i: nat): (v: set<nat>)
    ensures Outside(u, o, i, v)
  {
    set p | p in u && !InBlock(p, o, i)
  }

  /** `f`, the free indices by order, is the canonical decomposition of `u`. */
  ghost predicate Decomposes(f: seq<set<nat>>, u: set<nat>, k: nat) {
    && |f| == k + 1
    && forall o: nat, i: nat | o <= k :: i in f[o] <==> Canonical(u, k, o, i)
  }

  /** `f` decomposes `u` without `(o, i)`, and also lists the whole block `(o, i)`. */
  ghost predicate InHand(f: seq<set<nat>>, u: set<nat>, k: nat, o: nat, i: nat) {
    && o <= k && |f| == k + 1 && i in f[o]
    && Whole(u, o, i)
    && Decomposes(f[o := f[o] - {i}], Rest(u, o, i), k)
  }

  /** `f` decomposes `u` except that the whole block `(o, i)` is not yet listed. */
  ghost predicate Missing(f: seq<set<nat>>, u: set<nat>, k: nat, o: nat, i: nat) {
    && o <= k && |f| == k + 1
    && Whole(u, o, i)
    && Decomposes(f, Rest(u, o, i), k)
  }

  lemma DecompositionUnique(f: seq<set<nat>>, g: seq<set<nat>>, u: set<nat>, k: nat)
    requires Decomposes(f, u, k) && Decomposes(g, u, k)
    ensures f == g
  {
    forall o: nat | o <= k
      ensures f[o] == g[o]
    {
      assert forall i: nat :: i in f[o] <==> Canonical(u, k, o, i);
      assert forall i: nat :: i in g[o] <==> Canonical(u, k, o, i);
    }
  }

  lemma TakeInHand(f: seq<set<nat>>, u: set<nat>, k: nat, o: nat, i: nat)
    requires Decomposes(f, u, k) && o <= k && |f| == k + 1 && i in f[o]
    ensures InHand(f, u, k, o, i)
  {
    assert Canonical(u, k, o, i);
    RemoveCanonicalBlock(u, k, o, i, Rest(u, o, i));
  }

  /** One split of `alloc_pages`: the block in hand becomes its lower half. */
  lemma SplitInHand(f: seq<set<nat>>, u: set<nat>, k: nat, o: nat, i: nat)
    requires InHand(f, u, k, o, i) && 0 < o
    ensures InHand(f[o := f[o] - {i}][o - 1 := f[o - 1] + {2 * i, 2 * i + 1}], u, k, o - 1, 2 * i)
  {
    var rest, rest' := Rest(u, o, i), Rest(u, o - 1, 2 * i);
    UpperHalfPutBack(u, k, o, i, rest, rest');
    var g := f[o := f[o] - {i}];
    var h := g[o - 1 := f[o - 1] + {2 * i, 2 * i + 1}];
    assert !Canonical(rest', k, o - 1, 2 * i);
    forall o': nat, i': nat | o' <= k
      ensures i' in h[o - 1 := h[o - 1] - {2 * i}][o'] <==> Canonical(rest', k, o', i')
    {
      assert i' in g[o'] <==> Canonical(rest, k, o', i');
    }
  }

  /** Giving back the upper half of a block in hand adds exactly that half. */
  lemma UpperHalfPutBack(u: set<nat>, k: nat, o: nat, i: nat, rest: set<nat>, rest': set<nat>)
    requires 0 < o <= k && Whole(u, o, i)
    requires Outside(u, o, i, rest) && Outside(u, o - 1, 2 * i, rest')
    ensures Whole(u, o - 1, 2 * i)
    ensures !Canonical(rest', k, o - 1, 2 * i)
    ensures forall o': nat, i': nat ::
      Canonical(rest', k, o', i') <==> Canonical(rest, k, o', i') || (o' == o - 1 && i' == 2 * i + 1)
  {
    var half := 2 * i + 1;
    assert forall p: nat :: InBlock(p, o, i) <==> InBlock(p, o - 1, 2 * i) || InBlock(p, o - 1, half);
    assert InBlock(Down(2 * i, o - 1), o - 1, 2 * i);
    assert BuddyOf(half) == 2 * i;
    InsertedIsCanonical(rest', k, o - 1, half, rest);
    RemoveCanonicalBlock(rest', k, o - 1, half, rest);
  }

  /** One merge of `free_pages`: the free buddy is unlisted and the missing
      block becomes the parent. */
  lemma MergeMissing(f: seq<set<nat>>, u: set<nat>, k: nat, o: nat, i: nat)
    requires Missing(f, u, k, o, i) && o < k && BuddyOf(i) in f[o]
    ensures Missing(f[o := f[o] - {BuddyOf(i)}], u, k, o + 1, i / 2)
  {
    var rest := Rest(u, o, i);
    assert Canonical(rest, k, o, BuddyOf(i));
    HalvesMakeWhole(u, o, i);
    assert forall p: nat :: InBlock(p, o + 1, i / 2) <==> InBlock(p, o, i) || InBlock(p, o, BuddyOf(i));
    RemoveCanonicalBlock(rest, k, o, BuddyOf(i), Rest(u, o + 1, i / 2));
  }

  /** The last step of `free_pages`: with no free buddy the block is listed. */
  lemma PlaceMissing(f: seq<set<nat>>, u: set<nat>, k: nat, o: nat, i: nat)
    requires Missing(f, u, k, o, i) && (o < k ==> BuddyOf(i) !in f[o])
    ensures Decomposes(f[o := f[o] + {i}], u, k)
  {
    var rest := Rest(u, o, i);
    assert o < k ==> !Canonical(rest, k, o, BuddyOf(i));
    InsertedIsCanonical(u, k, o, i, rest);
    RemoveCanonicalBlock(u, k, o, i, rest);
  }
}
