/** The 32-bit words of naturals, as `u32` fields hold them. */
module Words {

  const TOP: bv32 := 0x8000_0000

  /** The word of `n`, modulo 2^32, built bit by bit. */
  function ToWord(n: nat): bv32 {
    if n == 0 then 0 else Shifted(ToWord(n / 2), n % 2 == 1)
  }

  function Shifted(w: bv32, low: bool): bv32 {
    (w << 1) | if low then 1 else 0
  }

  /** The value of the `k` low bits of a word. */
  function LowBits(w: bv32, k: nat): nat {
    if k == 0 then 0 else 2 * LowBits(w >> 1, k - 1) + if w & 1 == 1 then 1 else 0
  }

  /** The value of a word. */
  function FromWord(w: bv32): nat {
    LowBits(w, 32)
  }

  function Pow(k: nat): nat {
    if k == 0 then 1 else 2 * Pow(k - 1)
  }

  /** The mask of the highest `j + 1` bits. */
  function HighBits(j: nat): bv32 {
    if j == 0 then TOP else (HighBits(j - 1) >> 1) | TOP
  }

  lemma Halved(n: nat)
    ensures ToWord(n) == Shifted(ToWord(n / 2), n % 2 == 1)
  {
  }

  // ----- facts about single words -----

  lemma ShiftedClear(w: bv32, low: bool, m: bv32, x: bv32)
    requires w & ((m >> 1) | TOP) == 0 && m & 1 == 0 && x == Shifted(w, low)
    ensures x & m == 0
  {
  }

  lemma ShiftedBack(w: bv32, low: bool, x: bv32)
    requires w & TOP == 0 && x == Shifted(w, low)
    ensures x >> 1 == w && (x & 1 == 1 <==> low)
  {
    if low { BackFromOdd(w); } else { BackFromEven(w); }
  }

  lemma BackFromOdd(w: bv32)
    requires w & TOP == 0
    ensures ((w << 1) | 1) >> 1 == w && ((w << 1) | 1) & 1 == 1
  {
  }

  lemma BackFromEven(w: bv32)
    requires w & TOP == 0
    ensures ((w << 1) | 0) >> 1 == w && ((w << 1) | 0) & 1 == 0
  {
  }

  lemma ClearInside(w: bv32, m: bv32, part: bv32)
    requires w & m == 0 && part & m == part
    ensures w & part == 0
  {
  }

  lemma InsideStep(a: bv32, b: bv32)
    requires a & b == a
    ensures ((a >> 1) | TOP) & ((b >> 1) | TOP) == (a >> 1) | TOP
  {
  }

  lemma InsideTrans(a: bv32, b: bv32, c: bv32)
    requires a & b == a && b & c == b
    ensures a & c == a
  {
  }

  // ----- the masks -----

  lemma HighBitsValues()
    ensures HighBits(1) == 0xc000_0000 && HighBits(30) == 0xffff_fffe && HighBits(31) == 0xffff_ffff
  {
    assert HighBits(10) == 0xffe0_0000;
    assert HighBits(20) == 0xffff_f800;
  }

  lemma {:induction false} HighBitsGrow(j: nat)
    ensures HighBits(j) & HighBits(j + 1) == HighBits(j) && TOP & HighBits(j) == TOP
  {
    if j > 0 {
      HighBitsGrow(j - 1);
      InsideStep(HighBits(j - 1), HighBits(j));
    }
  }

  lemma {:induction false} HighBitsInside(j: nat, k: nat)
    requires j <= k
    ensures HighBits(j) & HighBits(k) == HighBits(j)
    decreases k - j
  {
    if j < k {
      HighBitsGrow(j);
      HighBitsInside(j + 1, k);
      InsideTrans(HighBits(j), HighBits(j + 1), HighBits(k));
    }
  }

  lemma LowBitClear(j: nat)
    requires j <= 30
    ensures HighBits(j) & 1 == 0
  {
    HighBitsValues();
    HighBitsInside(j, 30);
    EvenInside(HighBits(j));
  }

  lemma EvenInside(w: bv32)
    requires w & 0xffff_fffe == w
    ensures w & 1 == 0
  {
  }

  // ----- words of naturals -----

  /** A number of `k` bits has a word of `k` bits. */
  lemma {:induction false} WordFits(n: nat, k: nat)
    requires k <= 31 && n < Pow(k)
    ensures ToWord(n) & HighBits(31 - k) == 0
  {
    if k > 0 {
      HalfSmall(n, k);
      WordFits(n / 2, k - 1);
      ShiftedFits(n, ToWord(n / 2), 31 - k);
    }
  }

  lemma HalfSmall(n: nat, k: nat)
    requires 0 < k && n < Pow(k)
    ensures n / 2 < Pow(k - 1)
  {
  }

  lemma ShiftedFits(n: nat, half: bv32, j: nat)
    requires half == ToWord(n / 2) && j <= 30 && half & HighBits(j + 1) == 0
    ensures ToWord(n) & HighBits(j) == 0
  {
    Halved(n);
    LowBitClear(j);
    ShiftedClear(half, n % 2 == 1, HighBits(j), ToWord(n));
  }

  lemma HalfFits(n: nat, k: nat)
    requires 0 < k <= 32 && n < Pow(k)
    ensures ToWord(n / 2) & TOP == 0
  {
    var j := 31 - (k - 1);
    WordFits(n / 2, k - 1);
    HighBitsGrow(j);
    ClearInside(ToWord(n / 2), HighBits(j), TOP);
  }

  /** The value of the word of a 32-bit number is the number. */
  lemma {:induction false} RoundTrip(n: nat, k: nat)
    requires k <= 32 && n < Pow(k)
    ensures LowBits(ToWord(n), k) == n
  {
    if k > 0 {
      HalfSmall(n, k);
      HalfFits(n, k);
      RoundTrip(n / 2, k - 1);
      RoundTripStep(n, k, ToWord(n / 2), ToWord(n));
    }
  }

  lemma RoundTripStep(n: nat, k: nat, half: bv32, w: bv32)
    requires k > 0 && half == ToWord(n / 2) && w == ToWord(n)
    requires half & TOP == 0 && LowBits(half, k - 1) == n / 2
    ensures LowBits(w, k) == n
  {
    Halved(n);
    ShiftedBack(half, n % 2 == 1, w);
    OneMoreBit(w, half, n, k);
  }

  lemma OneMoreBit(w: bv32, half: bv32, n: nat, k: nat)
    requires k > 0 && half == w >> 1 && LowBits(half, k - 1) == n / 2 && (w & 1 == 1 <==> n % 2 == 1)
    ensures LowBits(w, k) == n
  {
  }

  lemma PowValues()
    ensures Pow(30) == 0x4000_0000 && Pow(32) == 0x1_0000_0000
  {
    assert Pow(10) == 1024;
    assert Pow(20) == 0x10_0000;
  }
}
