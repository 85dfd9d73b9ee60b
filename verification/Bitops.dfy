/**
 Multi-word bitmaps (include/kernel/bitops.h).

 A bitmap is an array of 32-bit words.  `Bits` gives the set of naturals it
 denotes, and every operation is specified by what it does to that set.
 */
module Bitops {

  predicate BitAt(w: bv32, i: bv6)
    requires i < 32
  {
    (w >> i) & 1 == 1
  }

  /** Bit `i` of a word.  Shift amounts are 6 bits wide. */
  predicate Bit(w: bv32, i: nat)
    requires i < 32
  {
    BitAt(w, i as bv6)
  }

  /** Bit number `b` of a sequence of words is set. */
  predicate InWords(words: seq<bv32>, b: nat) {
    b < 32 * |words| && Bit(words[b / 32], b % 32)
  }

  /** The set of bit numbers denoted by a sequence of words. */
  function Bits(words: seq<bv32>): set<nat> {
    set b: nat | b < 32 * |words| && InWords(words, b)
  }

  /** `s == Bits(words)`, in a form that keeps clients of a bitmap away from its words. */
  ghost predicate Denotes(words: seq<bv32>, s: set<nat>) {
    forall b: nat {:trigger InWords(words, b)} :: InWords(words, b) <==> b in s
  }

  lemma DenotesIsBits(words: seq<bv32>, s: set<nat>)
    ensures Denotes(words, s) <==> s == Bits(words)
  {
    assert forall b: nat :: b in Bits(words) <==> InWords(words, b);
  }

  /** The words of a bitmap are determined by the set it denotes. */
  lemma WordsDetermined(words: seq<bv32>, words': seq<bv32>, s: set<nat>)
    requires |words| == |words'| && Denotes(words, s) && Denotes(words', s)
    ensures words == words'
  {
    forall i | 0 <= i < |words|
      ensures words[i] == words'[i]
    {
      forall j: nat | j < 32
        ensures Bit(words[i], j) <==> Bit(words'[i], j)
      {
        var b := 32 * i + j;
        assert b / 32 == i && b % 32 == j;
        assert InWords(words, b) <==> InWords(words', b);
      }
      SameBitsSameWord(words[i], words'[i]);
    }
  }

  lemma SameBitsSameWord(v: bv32, w: bv32)
    requires forall j: nat | j < 32 :: Bit(v, j) <==> Bit(w, j)
    ensures v == w
  {
    var x := v ^ w;
    forall j: nat | j < 32
      ensures !Bit(x, j)
    {
      assert Bit(v, j) <==> Bit(w, j);
      XorBitAt(v, w, j as bv6);
    }
    NoBitsIsZero(x);
    XorZero(v, w);
  }

  lemma XorBitAt(v: bv32, w: bv32, i: bv6)
    requires i < 32
    ensures BitAt(v ^ w, i) <==> (BitAt(v, i) <==> !BitAt(w, i))
  {
  }

  lemma XorZero(v: bv32, w: bv32)
    ensures v ^ w == 0 ==> v == w
  {
  }

  /** `r` is the least element of `s` below `size`, or `size` if there is none. */
  ghost predicate IsFirst(s: set<nat>, size: nat, r: nat) {
    && r <= size
    && (r < size ==> r in s)
    && (forall b: nat :: b < r ==> b !in s)
  }

  function SetAt(w: bv32, i: bv6): bv32
    requires i < 32
  {
    w | (1 << i)
  }

  function ClearAt(w: bv32, i: bv6): bv32
    requires i < 32
  {
    w & !(1 << i)
  }

  lemma ShiftAmountInjective(i: nat, j: nat)
    requires i < 32 && j < 32 && i != j
    ensures i as bv6 != j as bv6
  {
  }

  lemma BitAtSet(w: bv32, i: bv6, j: bv6)
    requires i < 32 && j < 32
    ensures BitAt(SetAt(w, i), j) <==> if j == i then true else BitAt(w, j)
  {
  }

  lemma BitAtCleared(w: bv32, i: bv6, j: bv6)
    requires i < 32 && j < 32
    ensures BitAt(ClearAt(w, i), j) <==> if j == i then false else BitAt(w, j)
  {
  }

  /** A word changed in one shift position is changed in one bit number. */
  lemma OneBitChanged(w: bv32, r: bv32, i: nat, j: nat, on: bool)
    requires i < 32 && j < 32
    requires BitAt(r, j as bv6) <==> if j as bv6 == i as bv6 then on else BitAt(w, j as bv6)
    ensures Bit(r, j) <==> if j == i then on else Bit(w, j)
  {
    if i != j { ShiftAmountInjective(i, j); }
  }

  lemma BitSet(w: bv32, i: nat, j: nat)
    requires i < 32 && j < 32
    ensures Bit(SetAt(w, i as bv6), j) <==> Bit(w, j) || j == i
  {
    BitAtSet(w, i as bv6, j as bv6);
    OneBitChanged(w, SetAt(w, i as bv6), i, j, true);
  }

  lemma BitCleared(w: bv32, i: nat, j: nat)
    requires i < 32 && j < 32
    ensures Bit(ClearAt(w, i as bv6), j) <==> Bit(w, j) && j != i
  {
    BitAtCleared(w, i as bv6, j as bv6);
    OneBitChanged(w, ClearAt(w, i as bv6), i, j, false);
  }

  lemma NotBitAt(w: bv32, i: bv6)
    requires i < 32
    ensures BitAt(!w, i) <==> !BitAt(w, i)
  {
  }

  /** A word with no bit set is zero. */
  lemma NoBitsIsZero(w: bv32)
    requires forall i: nat | i < 32 :: !Bit(w, i)
    ensures w == 0
  {
    assert !Bit(w, 0) && !Bit(w, 1) && !Bit(w, 2) && !Bit(w, 3);
    assert !Bit(w, 4) && !Bit(w, 5) && !Bit(w, 6) && !Bit(w, 7);
    assert !Bit(w, 8) && !Bit(w, 9) && !Bit(w, 10) && !Bit(w, 11);
    assert !Bit(w, 12) && !Bit(w, 13) && !Bit(w, 14) && !Bit(w, 15);
    assert !Bit(w, 16) && !Bit(w, 17) && !Bit(w, 18) && !Bit(w, 19);
    assert !Bit(w, 20) && !Bit(w, 21) && !Bit(w, 22) && !Bit(w, 23);
    assert !Bit(w, 24) && !Bit(w, 25) && !Bit(w, 26) && !Bit(w, 27);
    assert !Bit(w, 28) && !Bit(w, 29) && !Bit(w, 30) && !Bit(w, 31);
  }

  lemma ZeroHasNoBits(i: nat)
    requires i < 32
    ensures !Bit(0, i)
  {
    ZeroHasNoBitsAt(i as bv6);
  }

  lemma ZeroHasNoBitsAt(i: bv6)
    requires i < 32
    ensures !BitAt(0, i)
  {
  }

  /** `set_bit` */
  function SetBit(w: bv32, i: nat): (r: bv32)
    requires i < 32
    ensures forall j: nat | j < 32 :: Bit(r, j) <==> Bit(w, j) || j == i
  {
    assert forall j: nat | j < 32 :: Bit(SetAt(w, i as bv6), j) <==> Bit(w, j) || j == i by {
      forall j: nat | j < 32
        ensures Bit(SetAt(w, i as bv6), j) <==> Bit(w, j) || j == i
      {
        BitSet(w, i, j);
      }
    }
    SetAt(w, i as bv6)
  }

  /** `clear_bit` */
  function ClearBit(w: bv32, i: nat): (r: bv32)
    requires i < 32
    ensures forall j: nat | j < 32 :: Bit(r, j) <==> Bit(w, j) && j != i
  {
    assert forall j: nat | j < 32 :: Bit(ClearAt(w, i as bv6), j) <==> Bit(w, j) && j != i by {
      forall j: nat | j < 32
        ensures Bit(ClearAt(w, i as bv6), j) <==> Bit(w, j) && j != i
      {
        BitCleared(w, i, j);
      }
    }
    ClearAt(w, i as bv6)
  }

  /** `__builtin_ffsl`: one plus the index of the least set bit, or 0. */
  function Ffs(w: bv32): (r: nat)
    ensures r <= 32
    ensures r == 0 <==> w == 0
    ensures r > 0 ==> Bit(w, r - 1)
    ensures forall j: nat :: j + 1 < r ==> !Bit(w, j)
  {
    var k := FirstFrom(w, 0);
    assert w == 0 ==> forall j: nat | j < 32 :: !Bit(w, j) by {
      forall j: nat | j < 32 ensures !Bit(0, j) { ZeroHasNoBits(j); }
    }
    if k == 32 then NoBitsIsZero(w); 0 else k + 1
  }

  function FirstFrom(w: bv32, i: nat): (r: nat)
    requires i <= 32
    ensures i <= r <= 32
    ensures r < 32 ==> Bit(w, r)
    ensures forall j: nat :: i <= j < r ==> !Bit(w, j)
    decreases 32 - i
  {
    if i == 32 || Bit(w, i) then i else FirstFrom(w, i + 1)
  }

  /** Updating one word changes exactly one element of the denoted set. */
  lemma BitsAfterUpdate(words: seq<bv32>, bit: nat, w: bv32, on: bool)
    requires bit < 32 * |words|
    requires forall j: nat | j < 32 :: Bit(w, j) <==> (if j == bit % 32 then on else Bit(words[bit / 32], j))
    ensures Bits(words[bit / 32 := w]) == (if on then Bits(words) + {bit} else Bits(words) - {bit})
  {
    var after := words[bit / 32 := w];
    forall b: nat | b < 32 * |words|
      ensures b in Bits(after) <==> (if b == bit then on else b in Bits(words))
    {
      if b / 32 == bit / 32 {
        assert b % 32 == bit % 32 <==> b == bit;
      }
    }
  }

  method BitmapSetBit(bitmap: array<bv32>, bit: nat)
    requires bit < 32 * bitmap.Length
    modifies bitmap
    ensures Bits(bitmap[..]) == old(Bits(bitmap[..])) + {bit}
  {
    BitsAfterUpdate(bitmap[..], bit, SetBit(bitmap[bit / 32], bit % 32), true);
    bitmap[bit / 32] := SetBit(bitmap[bit / 32], bit % 32);
    assert bitmap[..] == old(bitmap[..])[bit / 32 := SetBit(old(bitmap[bit / 32]), bit % 32)];
  }

  method BitmapClearBit(bitmap: array<bv32>, bit: nat)
    requires bit < 32 * bitmap.Length
    modifies bitmap
    ensures Bits(bitmap[..]) == old(Bits(bitmap[..])) - {bit}
  {
    BitsAfterUpdate(bitmap[..], bit, ClearBit(bitmap[bit / 32], bit % 32), false);
    bitmap[bit / 32] := ClearBit(bitmap[bit / 32], bit % 32);
    assert bitmap[..] == old(bitmap[..])[bit / 32 := ClearBit(old(bitmap[bit / 32]), bit % 32)];
  }

  /** `bitmap_get_bit`: 1 for a member, 0 otherwise. */
  function BitmapGetBit(bitmap: array<bv32>, bit: nat): (r: bv32)
    requires bit < 32 * bitmap.Length
    reads bitmap
    ensures r == (if bit in Bits(bitmap[..]) then 1 else 0)
  {
    (bitmap[bit / 32] >> (bit % 32) as bv6) & 1
  }

  method FindFirstBit(addr: array<bv32>, size: nat) returns (r: nat)
    requires size <= 32 * addr.Length
    ensures IsFirst(Bits(addr[..]), size, r)
  {
    var i := 0;
    while i * 32 < size
      invariant i <= addr.Length
      invariant forall b: nat :: b < 32 * i ==> b !in Bits(addr[..])
    {
      if addr[i] != 0 {
        var first := i * 32 + Ffs(addr[i]) - 1;
        FirstInWord(addr[..], i, first);
        return if first <= size then first else size;
      }
      NoneInZeroWord(addr[..], i);
      i := i + 1;
    }
    r := size;
  }

  lemma FirstInWord(words: seq<bv32>, i: nat, first: nat)
    requires i < |words| && words[i] != 0
    requires forall b: nat :: b < 32 * i ==> b !in Bits(words)
    requires first == i * 32 + Ffs(words[i]) - 1
    ensures first in Bits(words)
    ensures forall b: nat :: b < first ==> b !in Bits(words)
  {
    assert first / 32 == i && first % 32 == Ffs(words[i]) - 1;
    forall b: nat | 32 * i <= b < first ensures b !in Bits(words) {
      assert b / 32 == i && b % 32 + 1 < Ffs(words[i]);
    }
  }

  function Inverted(words: seq<bv32>): (r: seq<bv32>)
    ensures |r| == |words| && forall i | 0 <= i < |words| :: r[i] == !words[i]
  {
    seq(|words|, i requires 0 <= i < |words| => !words[i])
  }

  /** Inverting every word complements the denoted set. */
  lemma BitsOfInverted(words: seq<bv32>)
    ensures forall b: nat | b < 32 * |words| :: b in Bits(Inverted(words)) <==> b !in Bits(words)
  {
    forall b: nat | b < 32 * |words|
      ensures b in Bits(Inverted(words)) <==> b !in Bits(words)
    {
      NotBitAt(words[b / 32], (b % 32) as bv6);
    }
  }

  lemma NoneInZeroWord(words: seq<bv32>, i: nat)
    requires i < |words| && words[i] == 0
    requires forall b: nat :: b < 32 * i ==> b !in Bits(words)
    ensures forall b: nat :: b < 32 * (i + 1) ==> b !in Bits(words)
  {
    forall b: nat | 32 * i <= b < 32 * (i + 1)
      ensures b !in Bits(words)
    {
      ZeroHasNoBits(b % 32);
    }
  }

  method FindFirstZeroBit(addr: array<bv32>, size: nat) returns (r: nat)
    requires size <= 32 * addr.Length
    ensures r <= size
    ensures r < size ==> r !in Bits(addr[..])
    ensures forall b: nat :: b < r ==> b in Bits(addr[..])
  {
    ghost var zeros := Inverted(addr[..]);
    var i := 0;
    while i * 32 < size
      invariant i <= addr.Length
      invariant forall b: nat :: b < 32 * i ==> b !in Bits(zeros)
    {
      if addr[i] != 0xffff_ffff {
        var first := FirstZeroOfWord(addr, i, zeros);
        r := if first <= size then first else size;
        FirstZero(addr[..], zeros, first, r);
        return;
      }
      NoneInZeroWord(zeros, i);
      i := i + 1;
    }
    r := size;
    NoZeros(addr[..], zeros, r);
  }

  /** The first clear bit, which is in word `i`. */
  method FirstZeroOfWord(addr: array<bv32>, i: nat, ghost zeros: seq<bv32>) returns (first: nat)
    requires zeros == Inverted(addr[..]) && i < addr.Length && addr[i] != 0xffff_ffff
    requires forall b: nat :: b < 32 * i ==> b !in Bits(zeros)
    ensures first in Bits(zeros) && forall b: nat :: b < first ==> b !in Bits(zeros)
  {
    first := i * 32 + Ffs(!addr[i]) - 1;
    FirstInWord(zeros, i, first);
  }

  lemma NoZeros(words: seq<bv32>, zeros: seq<bv32>, r: nat)
    requires zeros == Inverted(words) && r <= 32 * |words| && forall b: nat :: b < r ==> b !in Bits(zeros)
    ensures forall b: nat :: b < r ==> b in Bits(words)
  {
    BitsOfInverted(words);
  }

  lemma FirstZero(words: seq<bv32>, zeros: seq<bv32>, first: nat, r: nat)
    requires zeros == Inverted(words) && first in Bits(zeros) && r <= first
    requires forall b: nat :: b < first ==> b !in Bits(zeros)
    ensures (r == first ==> r !in Bits(words)) && forall b: nat :: b < r ==> b in Bits(words)
  {
    BitsOfInverted(words);
    NoZeros(words, zeros, r);
  }
}
