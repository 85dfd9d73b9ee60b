/** The packed word of a boundary tag (libc/stdlib.c:11-49): a free bit and a length. */
module Tags {
  import opened Words

  const FREE_MASK: bv32 := 0x4000_0000

  /** Lengths must be below this, or they would overlap the free bit. */
  const LENGTH_LIMIT: nat := 0x4000_0000

  function GetLength(w: bv32): bv32 {
    w & !FREE_MASK
  }

  function SetLength(w: bv32, len: bv32): bv32 {
    (w & FREE_MASK) | len
  }

  predicate GetFree(w: bv32) {
    w & FREE_MASK != 0
  }

  function SetFree(w: bv32, free: bool): bv32 {
    if free then w | FREE_MASK else w & !FREE_MASK
  }

  /** Setting the free bit keeps the length. */
  lemma FreeField(w: bv32, free: bool)
    ensures GetFree(SetFree(w, free)) == free && GetLength(SetFree(w, free)) == GetLength(w)
  {
    if free { OrMask(w); } else { AndMask(w); }
  }

  lemma OrMask(w: bv32)
    ensures (w | FREE_MASK) & FREE_MASK != 0 && (w | FREE_MASK) & !FREE_MASK == w & !FREE_MASK
  {
  }

  lemma AndMask(w: bv32)
    ensures (w & !FREE_MASK) & FREE_MASK == 0 && (w & !FREE_MASK) & !FREE_MASK == w & !FREE_MASK
  {
  }

  /** A length is stored intact, and keeps the free bit, exactly when it leaves the
      place of that bit clear. */
  lemma LengthField(w: bv32, len: bv32)
    ensures GetLength(SetLength(w, len)) == len <==> len & FREE_MASK == 0
    ensures len & FREE_MASK == 0 ==> GetFree(SetLength(w, len)) == GetFree(w)
    ensures len & FREE_MASK != 0 ==> GetFree(SetLength(w, len))
  {
    LengthPart(w, len);
    FreePart(w, len);
  }

  lemma LengthPart(w: bv32, len: bv32)
    ensures ((w & FREE_MASK) | len) & !FREE_MASK == len & !FREE_MASK
    ensures len & !FREE_MASK == len <==> len & FREE_MASK == 0
  {
  }

  lemma FreePart(w: bv32, len: bv32)
    ensures len & FREE_MASK == 0 ==> ((w & FREE_MASK) | len) & FREE_MASK == w & FREE_MASK
    ensures len & FREE_MASK != 0 ==> ((w & FREE_MASK) | len) & FREE_MASK != 0
  {
  }

  // ----- words that stand for a length and a free bit -----

  /** The tag word of a block of that length. */
  function Tag(length: nat, free: bool): bv32 {
    Packed(ToWord(length), free)
  }

  function Packed(v: bv32, free: bool): bv32 {
    if free then FREE_MASK | v else v
  }

  /** The value that `get_block_length` returns. */
  function LengthOf(w: bv32): nat {
    FromWord(GetLength(w))
  }

  lemma FreeBitClear(length: nat)
    requires length < LENGTH_LIMIT
    ensures ToWord(length) & FREE_MASK == 0
  {
    PowValues();
    HighBitsValues();
    WordFits(length, 30);
    ClearInside(ToWord(length), HighBits(1), FREE_MASK);
  }

  /** What is packed is what is read, and no two tags have one word. */
  lemma TagReads(length: nat, free: bool)
    requires length < LENGTH_LIMIT
    ensures LengthOf(Tag(length, free)) == length && GetFree(Tag(length, free)) == free
  {
    FreeBitClear(length);
    Unpack(ToWord(length));
    PowValues();
    RoundTrip(length, 32);
  }

  lemma Unpack(v: bv32)
    requires v & FREE_MASK == 0
    ensures GetLength(v) == v && GetLength(FREE_MASK | v) == v && GetFree(FREE_MASK | v) && !GetFree(v)
  {
  }

  /** `set_block_length` on a tag changes its length and nothing else. */
  lemma TagSetLength(length: nat, free: bool, length': nat)
    requires length < LENGTH_LIMIT && length' < LENGTH_LIMIT
    ensures SetLength(Tag(length, free), ToWord(length')) == Tag(length', free)
  {
    FreeBitClear(length);
    Repack(ToWord(length), ToWord(length'));
  }

  lemma Repack(v: bv32, v': bv32)
    requires v & FREE_MASK == 0
    ensures SetLength(v, v') == v' && SetLength(FREE_MASK | v, v') == FREE_MASK | v'
  {
  }

  /** `set_block_free` on a tag changes its free bit and nothing else. */
  lemma TagSetFree(length: nat, free: bool, free': bool)
    requires length < LENGTH_LIMIT
    ensures SetFree(Tag(length, free), free') == Tag(length, free')
  {
    FreeBitClear(length);
    Refree(ToWord(length), free, free');
  }

  lemma Refree(v: bv32, free: bool, free': bool)
    requires v & FREE_MASK == 0
    ensures SetFree(Packed(v, free), free') == Packed(v, free')
  {
    if free' {
      BitOn(v);
      if free { FreeOn(FREE_MASK | v); } else { FreeOn(v); }
    } else {
      BitOff(v);
      if free { FreeOff(FREE_MASK | v); } else { FreeOff(v); }
    }
  }

  lemma FreeOn(w: bv32)
    ensures SetFree(w, true) == w | FREE_MASK
  {
  }

  lemma FreeOff(w: bv32)
    ensures SetFree(w, false) == w & !FREE_MASK
  {
  }

  lemma BitOn(v: bv32)
    ensures (v | FREE_MASK) == FREE_MASK | v && ((FREE_MASK | v) | FREE_MASK) == FREE_MASK | v
  {
  }

  lemma BitOff(v: bv32)
    requires v & FREE_MASK == 0
    ensures v & !FREE_MASK == v && (FREE_MASK | v) & !FREE_MASK == v
  {
  }

  /** Clearing the free bit and then setting the length makes an allocated block's tag of
      any word whatever, as `malloc` does where a new tag is to be. */
  lemma TagFromAny(w: bv32, length: nat)
    ensures SetLength(SetFree(w, false), ToWord(length)) == Tag(length, false)
  {
    Overwrite(w, ToWord(length));
  }

  lemma Overwrite(w: bv32, v: bv32)
    ensures SetLength(SetFree(w, false), v) == v
  {
  }
}
