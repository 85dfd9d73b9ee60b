/**
 The circular doubly linked list of include/linux/list.h, in the heap.

 A ring is the sequence of its nodes, the list head first; its entries are the
 other nodes.  Every operation is specified by what it does to that sequence, and
 writes only nodes of the rings it is given.
 */
module ListRing {
  import opened Sequences

  /** `struct list_head`; null stands for the poison values. */
  class Node {
    var next: Node?
    var prev: Node?

    constructor ()
      ensures next == null && prev == null
    {
      next, prev := null, null;
    }
  }

  function Succ(i: int, n: int): int {
    if i + 1 == n then 0 else i + 1
  }

  ghost predicate LinkedAt(s: seq<Node>, i: int)
    requires 0 <= i < |s|
    reads s
  {
    s[i].next == s[Succ(i, |s|)] && s[Succ(i, |s|)].prev == s[i]
  }

  /** The nodes of `s` are linked in this order, in a circle, both ways. */
  ghost predicate Ring(s: seq<Node>)
    reads s
  {
    && |s| > 0 && NoDup(s)
    && (forall i :: 0 <= i < |s| ==> LinkedAt(s, i))
  }

  ghost predicate Apart(s: seq<Node>, t: seq<Node>) {
    forall i, j :: 0 <= i < |s| && 0 <= j < |t| ==> s[i] != t[j]
  }

  /** `INIT_LIST_HEAD` */
  method InitListHead(list: Node)
    modifies list
    ensures Ring([list])
  {
    list.next := list;
    list.prev := list;
  }

  /** `list_empty` */
  method ListEmpty(head: Node, ghost s: seq<Node>) returns (empty: bool)
    requires Ring(s) && s[0] == head
    ensures empty <==> s == [head]
  {
    assert LinkedAt(s, 0);
    empty := head.next == head;
  }

  /** `__list_add`, between the neighbours `s[k]` and its successor */
  method Insert(node: Node, prev: Node, next: Node, ghost s: seq<Node>, ghost k: int)
    requires Ring(s) && 0 <= k < |s| && prev == s[k] && next == s[Succ(k, |s|)] && node !in s
    modifies node, prev, next
    ensures Ring(s[..k + 1] + [node] + s[k + 1..])
  {
    ghost var t := s[..k + 1] + [node] + s[k + 1..];
    assert forall i :: 0 <= i < |s| ==> LinkedAt(s, i);
    next.prev := node;
    node.next := next;
    node.prev := prev;
    prev.next := node;
    forall i | 0 <= i < |t|
      ensures LinkedAt(t, i)
    {
      assert old(LinkedAt(s, k));
      if i < k {
        assert old(LinkedAt(s, i));
      } else if i > k + 1 {
        assert old(LinkedAt(s, i - 1));
      }
    }
  }

  /** `list_add`: the new entry comes first. */
  method ListAdd(node: Node, head: Node, ghost s: seq<Node>)
    requires Ring(s) && s[0] == head && node !in s
    modifies node, head, s[Succ(0, |s|)]
    ensures Ring([head, node] + s[1..])
  {
    assert LinkedAt(s, 0);
    Insert(node, head, head.next, s, 0);
    assert s[..1] + [node] + s[1..] == [head, node] + s[1..];
  }

  /** `list_add_tail`: the new entry comes last. */
  method ListAddTail(node: Node, head: Node, ghost s: seq<Node>)
    requires Ring(s) && s[0] == head && node !in s
    modifies node, head, s[|s| - 1]
    ensures Ring(s + [node])
  {
    assert LinkedAt(s, |s| - 1);
    Insert(node, head.prev, head, s, |s| - 1);
    assert s[..|s|] + [node] + s[|s|..] == s + [node];
  }

  function Pred(i: int, n: int): int {
    if i == 0 then n - 1 else i - 1
  }

  /** `__list_del_entry`: the neighbours of `s[k]` are linked to each other. */
  method Unlink(entry: Node, ghost s: seq<Node>, ghost k: int)
    requires Ring(s) && 0 <= k < |s| && entry == s[k] && |s| > 1
    modifies s[Pred(k, |s|)], s[Succ(k, |s|)]
    ensures Ring(s[..k] + s[k + 1..])
  {
    ghost var t := s[..k] + s[k + 1..];
    assert LinkedAt(s, Pred(k, |s|)) && LinkedAt(s, k);
    assert forall i :: 0 <= i < |s| ==> LinkedAt(s, i);
    var prev, next := entry.prev, entry.next;
    next.prev := prev;
    prev.next := next;
    forall i | 0 <= i < |t|
      ensures LinkedAt(t, i)
    {
      var j := if i < k then i else i + 1;
      var j' := Succ(j, |s|);
      assert old(LinkedAt(s, j));
      assert t[i] == s[j] && t[Succ(i, |t|)] == s[if j' == k then Succ(k, |s|) else j'];
    }
  }

  /** `list_del`: the entry leaves the ring and is poisoned. */
  method ListDel(entry: Node, ghost s: seq<Node>, ghost k: int)
    requires Ring(s) && 0 <= k < |s| && entry == s[k] && |s| > 1
    modifies entry, s[Pred(k, |s|)], s[Succ(k, |s|)]
    ensures Ring(s[..k] + s[k + 1..])
    ensures entry.next == null && entry.prev == null
  {
    Unlink(entry, s, k);
    entry.next, entry.prev := null, null;
  }

  /** `list_move`: from one ring to the front of another, or of the same one */
  method ListMove(entry: Node, head: Node, ghost s: seq<Node>, ghost k: int, ghost t: seq<Node>)
    requires Ring(s) && 0 < k < |s| && entry == s[k]
    requires Ring(t) && t[0] == head && (t == s || Apart(s, t))
    modifies s, t
    ensures t != s ==> Ring(s[..k] + s[k + 1..]) && Ring([head, entry] + t[1..])
    ensures t == s ==> Ring([head, entry] + s[1..k] + s[k + 1..])
  {
    ghost var rest := s[..k] + s[k + 1..];
    ghost var target := if t == s then rest else t;
    MoveTarget(s, k, t, rest, target);
    Unlink(entry, s, k);
    ListAdd(entry, head, target);
  }

  lemma MoveTarget(s: seq<Node>, k: int, t: seq<Node>, rest: seq<Node>, target: seq<Node>)
    requires NoDup(s) && 0 < k < |s| && rest == s[..k] + s[k + 1..]
    requires |t| > 0 && (t == s || Apart(s, t)) && target == if t == s then rest else t
    ensures s[k] !in target && |target| > 0 && target[0] == t[0]
    ensures t != s ==> Apart(rest, target) && Apart(rest, [s[k]])
    ensures t == s ==> [t[0], s[k]] + target[1..] == [t[0], s[k]] + s[1..k] + s[k + 1..]
  {
  }

  /** `list_rotate_left`: the first entry becomes the last. */
  method ListRotateLeft(head: Node, ghost s: seq<Node>)
    requires Ring(s) && s[0] == head
    modifies s
    ensures |s| == 1 ==> Ring(s)
    ensures |s| > 1 ==> Ring([head] + s[2..] + [s[1]])
  {
    var empty := ListEmpty(head, s);
    if !empty {
      assert LinkedAt(s, 0);
      var first := head.next;
      ghost var rest := s[..1] + s[2..];
      Unlink(first, s, 1);
      ListAddTail(first, head, rest);
      assert rest + [first] == [head] + s[2..] + [s[1]];
    }
  }

  /** `list_is_singular` */
  method ListIsSingular(head: Node, ghost s: seq<Node>) returns (single: bool)
    requires Ring(s) && s[0] == head
    ensures single <==> |s| == 2
  {
    assert LinkedAt(s, 0) && LinkedAt(s, |s| - 1);
    var empty := ListEmpty(head, s);
    single := !empty && head.next == head.prev;
  }

  /** `__list_cut_position` */
  method CutAt(list: Node, head: Node, entry: Node, ghost s: seq<Node>, ghost k: int)
    requires Ring(s) && s[0] == head && 0 < k < |s| && entry == s[k] && list !in s
    modifies list, head, s[1], entry, s[Succ(k, |s|)]
    ensures Ring([list] + s[1..k + 1])
    ensures Ring([head] + s[k + 1..])
  {
    ghost var front, back := [list] + s[1..k + 1], [head] + s[k + 1..];
    assert LinkedAt(s, 0) && LinkedAt(s, k);
    assert forall i :: 0 <= i < |s| ==> LinkedAt(s, i);
    var newFirst := entry.next;
    list.next := head.next;
    list.next.prev := list;
    list.prev := entry;
    entry.next := list;
    head.next := newFirst;
    newFirst.prev := head;
    forall i | 0 <= i < |front|
      ensures LinkedAt(front, i)
    {
      assert old(LinkedAt(s, i));
      assert i > 0 ==> front[i] == s[i];
      assert i < k ==> front[i + 1] == s[i + 1];
    }
    forall i | 0 <= i < |back|
      ensures LinkedAt(back, i)
    {
      if i > 0 {
        assert old(LinkedAt(s, k + i));
        assert back[i] == s[k + i];
      }
      assert k + i + 1 < |s| ==> back[i + 1] == s[k + i + 1];
    }
  }

  /**
   `list_cut_position`: the entries up to and including `entry` move to `list`.
   Cutting at the head moves nothing, and a foreign entry is noticed only on rings
   of at most one entry.
   */
  method ListCutPosition(list: Node, head: Node, entry: Node, ghost s: seq<Node>, ghost k: int)
    requires Ring(s) && s[0] == head && list !in s
    requires if 0 <= k < |s| then entry == s[k] else entry !in s && |s| <= 2
    modifies list, s
    ensures 0 <= k < |s| && |s| > 1 ==> Ring([list] + s[1..k + 1]) && Ring([head] + s[k + 1..])
    ensures !(0 <= k < |s| && |s| > 1) ==> Ring(s) && unchanged(list)
  {
    var empty := ListEmpty(head, s);
    if empty { return; }
    var single := ListIsSingular(head, s);
    assert LinkedAt(s, 0);
    if single && head.next != entry && head != entry { return; }
    if entry == head {
      InitListHead(list);
      assert k == 0;
      assert [list] + s[1..1] == [list] && [head] + s[1..] == s;
    } else {
      CutAt(list, head, entry, s, k);
    }
  }

  /** `__list_splice`: the entries of `s` come between `t[k]` and its successor. */
  method SpliceBetween(list: Node, prev: Node, next: Node,
                       ghost s: seq<Node>, ghost t: seq<Node>, ghost k: int)
    requires Ring(s) && s[0] == list && |s| > 1
    requires Ring(t) && Apart(s, t)
    requires 0 <= k < |t| && prev == t[k] && next == t[Succ(k, |t|)]
    modifies s[1], s[|s| - 1], prev, next
    ensures Ring(t[..k + 1] + s[1..] + t[k + 1..])
    ensures unchanged(list)
  {
    ghost var u := t[..k + 1] + s[1..] + t[k + 1..];
    assert LinkedAt(s, 0) && LinkedAt(s, |s| - 1) && LinkedAt(t, k);
    assert forall i :: 0 <= i < |s| ==> LinkedAt(s, i);
    assert forall i :: 0 <= i < |t| ==> LinkedAt(t, i);
    var first, last := list.next, list.prev;
    first.prev := prev;
    prev.next := first;
    last.next := next;
    next.prev := last;
    forall i | 0 <= i < |u|
      ensures LinkedAt(u, i)
    {
      if i < k {
        assert old(LinkedAt(t, i));
      } else if k < i < k + |s| - 1 {
        assert old(LinkedAt(s, i - k));
      } else if k + |s| <= i {
        assert old(LinkedAt(t, i - |s| + 1));
      }
    }
  }

  /** `list_splice_init`: all entries of `list` move to the front of `head`. */
  method ListSpliceInit(list: Node, head: Node, ghost s: seq<Node>, ghost t: seq<Node>)
    requires Ring(s) && s[0] == list && Ring(t) && t[0] == head
    requires Apart(s, t)
    modifies s, t
    ensures Ring([list])
    ensures Ring([head] + s[1..] + t[1..])
  {
    var empty := ListEmpty(list, s);
    assert LinkedAt(t, 0);
    if !empty {
      SpliceBetween(list, head, head.next, s, t, 0);
      InitListHead(list);
      assert t[..1] + s[1..] + t[1..] == [head] + s[1..] + t[1..];
    } else {
      assert [head] + s[1..] + t[1..] == t;
    }
  }

  /** `list_splice_tail_init`: all entries of `list` move to the back of `head`. */
  method ListSpliceTailInit(list: Node, head: Node, ghost s: seq<Node>, ghost t: seq<Node>)
    requires Ring(s) && s[0] == list && Ring(t) && t[0] == head
    requires Apart(s, t)
    modifies s, t
    ensures Ring([list])
    ensures Ring(t + s[1..])
  {
    var empty := ListEmpty(list, s);
    assert LinkedAt(t, |t| - 1);
    if !empty {
      SpliceBetween(list, head.prev, head, s, t, |t| - 1);
      InitListHead(list);
      assert t[..|t|] + s[1..] + t[|t|..] == t + s[1..];
    } else {
      assert t + s[1..] == t;
    }
  }

  /** Cutting at any entry into an empty list and splicing back restores both rings. */
  method CutAndSplice(list: Node, head: Node, entry: Node, ghost s: seq<Node>, ghost k: int)
    requires Ring(s) && s[0] == head && 0 <= k < |s| && entry == s[k]
    requires Ring([list]) && list !in s
    modifies list, s
    ensures Ring(s) && Ring([list])
  {
    assert LinkedAt([list], 0);
    ListCutPosition(list, head, entry, s, k);
    ghost var front, back := [list] + s[1..k + 1], [head] + s[k + 1..];
    if |s| == 1 {
      assert LinkedAt([list], 0);
      assert front == [list] && back == s;
    }
    ListSpliceInit(list, head, front, back);
    assert [head] + front[1..] + back[1..] == s;
  }

  /** The same, with every pointer of both rings. */
  method CutThenSplice(list: Node, head: Node, entry: Node, ghost s: seq<Node>, ghost k: int)
    requires Ring(s) && s[0] == head && 0 <= k < |s| && entry == s[k]
    requires Ring([list]) && list !in s
    modifies list, s
    ensures Ring(s) && Ring([list])
    ensures forall n :: n in s || n == list ==> n.next == old(n.next) && n.prev == old(n.prev)
  {
    assert LinkedAt([list], 0);
    assert forall i :: 0 <= i < |s| ==> LinkedAt(s, i);
    CutAndSplice(list, head, entry, s, k);
    assert LinkedAt([list], 0);
    forall i | 0 <= i < |s|
      ensures s[i].next == old(s[i].next) && s[i].prev == old(s[i].prev)
    {
      assert old(LinkedAt(s, i)) && LinkedAt(s, i);
      assert old(LinkedAt(s, Pred(i, |s|))) && LinkedAt(s, Pred(i, |s|));
    }
  }

  /** `list_for_each`: walking the `next` pointers meets every entry once, in order. */
  method Entries(head: Node, ghost s: seq<Node>) returns (xs: seq<Node>)
    requires Ring(s) && s[0] == head
    ensures xs == s[1..]
  {
    xs := [];
    assert LinkedAt(s, 0);
    var pos := head.next;
    ghost var i := 0;
    while pos != head
      invariant 0 <= i < |s| && xs == s[1..i + 1] && pos == s[Succ(i, |s|)]
      decreases |s| - i
    {
      assert LinkedAt(s, Succ(i, |s|));
      xs := xs + [pos];
      pos := pos.next;
      i := i + 1;
    }
  }

  /** The nodes of `s` outside `drop`, in order. */
  function Kept(s: seq<Node>, drop: set<Node>): (r: seq<Node>) {
    if s == [] then []
    else if s[|s| - 1] in drop then Kept(s[..|s| - 1], drop)
    else Kept(s[..|s| - 1], drop) + [s[|s| - 1]]
  }

  lemma {:induction false} KeptInside(s: seq<Node>, drop: set<Node>)
    ensures forall j :: 0 <= j < |Kept(s, drop)| ==> Kept(s, drop)[j] in s && Kept(s, drop)[j] !in drop
    ensures forall i :: 0 <= i < |s| && s[i] !in drop ==> s[i] in Kept(s, drop)
  {
    if s != [] {
      KeptInside(s[..|s| - 1], drop);
      assert s == s[..|s| - 1] + [s[|s| - 1]];
    }
  }

  /** The ring while an iteration stands at `s[i]`. */
  function Midway(s: seq<Node>, drop: set<Node>, i: int): (r: seq<Node>)
    requires 0 <= i <= |s|
  {
    Kept(s[..i], drop) + s[i..]
  }

  lemma MidwayStep(s: seq<Node>, drop: set<Node>, i: int, k: int)
    requires 0 < i < |s| && s[0] !in drop && k == |Kept(s[..i], drop)|
    ensures 0 < k < |Midway(s, drop, i)| && Midway(s, drop, i)[0] == s[0]
    ensures Midway(s, drop, i)[k] == s[i]
    ensures Midway(s, drop, i)[Succ(k, |Midway(s, drop, i)|)] == s[Succ(i, |s|)]
    ensures var ring := Midway(s, drop, i);
      Midway(s, drop, i + 1) == if s[i] in drop then ring[..k] + ring[k + 1..] else ring
  {
    KeptHead(s[..i], drop);
    assert s[..i + 1][..i] == s[..i];
    var ring := Midway(s, drop, i);
    assert ring[..k] == Kept(s[..i], drop);
    assert ring[k + 1..] == s[i + 1..];
    assert [s[i]] + s[i + 1..] == s[i..];
  }

  lemma MidwayInside(s: seq<Node>, drop: set<Node>, i: int, j: int)
    requires 0 < i < |s| && 0 <= j < |Midway(s, drop, i)|
    ensures Midway(s, drop, i)[j] in s
  {
    KeptInside(s[..i], drop);
    var front := Kept(s[..i], drop);
    if j < |front| {
      assert front[j] in s[..i];
    } else {
      assert Midway(s, drop, i)[j] == s[i + j - |front|];
    }
  }

  lemma {:induction false} KeptHead(s: seq<Node>, drop: set<Node>)
    requires |s| > 0 && s[0] !in drop
    ensures |Kept(s, drop)| > 0 && Kept(s, drop)[0] == s[0]
  {
    if |s| > 1 { KeptHead(s[..|s| - 1], drop); }
  }

  lemma MidwayBegins(s: seq<Node>, drop: set<Node>)
    requires |s| > 0 && s[0] !in drop
    ensures Midway(s, drop, 1) == s
  {
    assert s[..1] == [s[0]] && [s[0]][..0] == [];
    assert Kept([], drop) == [] && Kept([s[0]], drop) == [s[0]];
  }

  lemma MidwayEnds(s: seq<Node>, drop: set<Node>)
    ensures Midway(s, drop, |s|) == Kept(s, drop)
  {
    assert s[..|s|] == s && s[|s|..] == [];
  }

  /** One round of the loop: the successor is read before the entry may leave. */
  method Visit(pos: Node, drop: set<Node>, ghost ring: seq<Node>, ghost k: int) returns (next: Node)
    requires Ring(ring) && 0 < k < |ring| && pos == ring[k]
    modifies pos, ring[Pred(k, |ring|)], ring[Succ(k, |ring|)]
    ensures next == ring[Succ(k, |ring|)]
    ensures Ring(if pos in drop then ring[..k] + ring[k + 1..] else ring)
  {
    assert LinkedAt(ring, k);
    next := pos.next;
    if pos in drop {
      ListDel(pos, ring, k);
    }
  }

  method VisitAt(pos: Node, drop: set<Node>, ghost s: seq<Node>, ghost i: int) returns (next: Node)
    requires 0 < i < |s| && s[0] !in drop && pos == s[i] && Ring(Midway(s, drop, i))
    modifies s
    ensures next == s[Succ(i, |s|)] && Ring(Midway(s, drop, i + 1))
  {
    ghost var k, ring := |Kept(s[..i], drop)|, Midway(s, drop, i);
    MidwayStep(s, drop, i, k);
    MidwayInside(s, drop, i, Pred(k, |ring|));
    MidwayInside(s, drop, i, Succ(k, |ring|));
    next := Visit(pos, drop, ring, k);
  }

  /**
   `list_for_each_safe` with `list_del` in its body: every entry is visited once, in
   order, and exactly the chosen ones leave the ring.
   */
  method RemoveSafely(head: Node, drop: set<Node>, ghost s: seq<Node>) returns (visited: seq<Node>)
    requires Ring(s) && s[0] == head && head !in drop
    modifies s
    ensures visited == s[1..]
    ensures Ring(Kept(s, drop))
  {
    visited := [];
    assert LinkedAt(s, 0);
    var pos: Node := head.next;
    ghost var i := 1;
    MidwayBegins(s, drop);
    while pos != head
      invariant 1 <= i <= |s| && visited == s[1..i]
      invariant pos == if i < |s| then s[i] else head
      invariant Ring(Midway(s, drop, i))
      decreases |s| - i
    {
      var next := VisitAt(pos, drop, s, i);
      assert s[1..i + 1] == s[1..i] + [s[i]];
      visited := visited + [pos];
      pos, i := next, i + 1;
    }
    MidwayEnds(s, drop);
  }

  /** A ring is determined by its head: the pointers hold the whole sequence. */
  lemma {:induction false} RingUnique(s: seq<Node>, t: seq<Node>)
    requires Ring(s) && Ring(t) && s[0] == t[0]
    ensures s == t
  {
    if |s| <= |t| {
      NotLonger(s, t);
    } else {
      NotLonger(t, s);
    }
    SamePrefix(s, t, |s|);
  }

  lemma NotLonger(s: seq<Node>, t: seq<Node>)
    requires Ring(s) && Ring(t) && s[0] == t[0] && |s| <= |t|
    ensures |s| == |t|
  {
    var n := |s|;
    SamePrefix(s, t, n);
    assert LinkedAt(s, n - 1) && LinkedAt(t, n - 1);
    assert s[n - 1] == s[..n][n - 1] == t[..n][n - 1] == t[n - 1];
  }

  lemma {:induction false} SamePrefix(s: seq<Node>, t: seq<Node>, n: int)
    requires Ring(s) && Ring(t) && s[0] == t[0] && 1 <= n <= |s| && n <= |t|
    ensures s[..n] == t[..n]
  {
    if n > 1 {
      SamePrefix(s, t, n - 1);
      assert LinkedAt(s, n - 2) && LinkedAt(t, n - 2);
      assert s[n - 2] == s[..n - 1][n - 2] == t[n - 2];
      assert s[..n] == s[..n - 1] + [s[n - 1]];
      assert t[..n] == t[..n - 1] + [t[n - 1]];
    }
  }
}
