/**
 `itoa_base` and `strrev` (libc/utils.c): the text of a 32-bit integer in a base
 from 2 to 36, written into a buffer.
 */
module Itoa {
  import opened Arithmetic

  const TWO32: nat := 0x1_0000_0000
  const INT_MIN: int := -0x8000_0000
  const INT_MAX: int := 0x7fff_ffff

  predicate Base(b: int) {
    2 <= b <= 36
  }

  // ------------------------------------------------------------------- numerals

  /** What a character is worth as a digit; -1 for those that are none. */
  function DigitValue(c: char): int {
    if '0' <= c <= '9' then c as int - '0' as int
    else if 'a' <= c <= 'z' then c as int - 'a' as int + 10
    else -1
  }

  function Digit(d: int): (c: char)
    requires 0 <= d < 36
    ensures DigitValue(c) == d
  {
    if d < 10 then ('0' as int + d) as char else ('a' as int + d - 10) as char
  }

  /** The value of a digit string, the most significant digit first. */
  function Parse(s: seq<char>, base: int): int {
    if s == [] then 0 else Parse(s[..|s| - 1], base) * base + DigitValue(s[|s| - 1])
  }

  /** Digits of the base only, and no leading zero. */
  ghost predicate IsNumeral(s: seq<char>, base: int) {
    && |s| > 0
    && (forall i :: 0 <= i < |s| ==> 0 <= DigitValue(s[i]) < base)
    && (|s| > 1 ==> DigitValue(s[0]) > 0)
  }

  /** The numeral of `v`. */
  function Numeral(v: nat, base: int): seq<char>
    requires Base(base)
    decreases v
  {
    Shrinks(v, base);
    if v < base then [Digit(v)]
    else Numeral(Quotient(v, base), base) + [Digit(Remainder(v, base))]
  }

  lemma Shrinks(v: nat, base: int)
    requires Base(base)
    ensures v < base ==> Quotient(v, base) == 0 && Remainder(v, base) == v
    ensures v >= base ==> 0 < Quotient(v, base) < v
  {
    var q := Quotient(v, base);
    QuotientBelow(v, base, 1);
    QuotientBelow(v, base, v);
    MulBound(base - 1, v + 1);
  }

  lemma {:induction false} NumeralParses(v: nat, base: int)
    requires Base(base)
    ensures IsNumeral(Numeral(v, base), base)
    ensures v > 0 ==> DigitValue(Numeral(v, base)[0]) > 0
    ensures Parse(Numeral(v, base), base) == v
    decreases v
  {
    Shrinks(v, base);
    var s := Numeral(v, base);
    if v < base {
      assert s[..0] == [];
    } else {
      var front := Numeral(Quotient(v, base), base);
      NumeralParses(Quotient(v, base), base);
      assert s[..|s| - 1] == front;
    }
  }

  lemma {:induction false} ParseBounds(s: seq<char>, base: int)
    requires Base(base) && IsNumeral(s, base)
    ensures Parse(s, base) >= 0
    ensures DigitValue(s[0]) > 0 ==> Parse(s, base) > 0
  {
    var n := |s| - 1;
    if n == 0 {
      assert s[..0] == [];
    } else {
      ParseBounds(s[..n], base);
      MulBound(Parse(s[..n], base), base);
    }
  }

  lemma NumeralAppend(q: nat, d: nat, base: int)
    requires Base(base) && q > 0 && d < base
    ensures q * base + d >= 0 && Numeral(q * base + d, base) == Numeral(q, base) + [Digit(d)]
  {
    MulBound(q, base);
    DivModUnique(q * base + d, base, q, d);
  }

  /** A value has one numeral only. */
  lemma {:induction false} NumeralUnique(s: seq<char>, base: int)
    requires Base(base) && IsNumeral(s, base)
    ensures Parse(s, base) >= 0 && s == Numeral(Parse(s, base), base)
  {
    var n := |s| - 1;
    DigitOfWorth(s[n]);
    if n == 0 {
      assert s[..0] == [] && s == [s[0]];
    } else {
      NumeralUnique(s[..n], base);
      ParseBounds(s[..n], base);
      UniqueStep(s, s[..n], base);
    }
  }

  lemma UniqueStep(s: seq<char>, front: seq<char>, base: int)
    requires Base(base) && IsNumeral(s, base) && |s| > 1 && front == s[..|s| - 1]
    requires Parse(front, base) > 0 && front == Numeral(Parse(front, base), base)
    ensures Parse(s, base) >= 0 && s == Numeral(Parse(s, base), base)
  {
    var q, c := Parse(front, base), s[|s| - 1];
    DigitOfWorth(c);
    NumeralAppend(q, DigitValue(c), base);
    assert s == front + [c];
  }

  lemma DigitOfWorth(c: char)
    requires 0 <= DigitValue(c)
    ensures DigitValue(c) < 36 && Digit(DigitValue(c)) == c
  {
  }

  // ---------------------------------------------------------------------- length

  function Pow(base: int, n: nat): int {
    if n == 0 then 1 else base * Pow(base, n - 1)
  }

  /** A numeral has at most `n` digits exactly when the value is below the n-th power. */
  lemma {:induction false} NumeralLength(v: nat, base: int, n: nat)
    requires Base(base) && n > 0
    ensures |Numeral(v, base)| <= n <==> v < Pow(base, n)
    decreases n
  {
    Shrinks(v, base);
    if n == 1 {
      NumeralParses(v, base);
      assert Pow(base, 1) == base * Pow(base, 0) == base;
      if v >= base {
        NumeralParses(Quotient(v, base), base);
      }
    } else {
      PowPositive(base, n - 1);
      if v >= base {
        var q, p := Quotient(v, base), Pow(base, n - 1);
        NumeralLength(q, base, n - 1);
        QuotientBelow(v, base, p);
      } else {
        MulBound(base, Pow(base, n - 1));
      }
    }
  }

  lemma QuotientBelow(v: nat, base: int, p: int)
    requires base > 0
    ensures Quotient(v, base) < p <==> v < base * p
  {
    var q, r := Quotient(v, base), Remainder(v, base);
    MulBound(p - q, base);
    MulBound(q - p, base);
    assert (p - q) * base == base * p - (v - r);
    assert (q - p) * base == (v - r) - base * p;
  }

  lemma {:induction false} PowPositive(base: int, n: nat)
    requires base >= 2
    ensures Pow(base, n) >= 1 && (n > 0 ==> Pow(base, n) >= base)
  {
    if n > 0 {
      PowPositive(base, n - 1);
      MulBound(Pow(base, n - 1), base);
    }
  }

  // ------------------------------------------------------------------------ text

  /** What `unsigned int val` holds when the digits are made. */
  function Magnitude(value: int, base: int): nat
    requires INT_MIN <= value <= INT_MAX
  {
    if value < 0 && base == 10 then -value else value % TWO32
  }

  function Text(value: int, base: int): seq<char>
    requires INT_MIN <= value <= INT_MAX && Base(base)
  {
    (if value < 0 && base == 10 then "-" else "") + Numeral(Magnitude(value, base), base)
  }

  /** Reads a text back; only base 10 has a sign. */
  function ParseSigned(s: seq<char>, base: int): int {
    if base == 10 && s != [] && s[0] == '-' then -Parse(s[1..], base) else Parse(s, base)
  }

  /** The text reads back as the value, or as its unsigned image outside base 10. */
  lemma TextParses(value: int, base: int)
    requires INT_MIN <= value <= INT_MAX && Base(base)
    ensures ParseSigned(Text(value, base), base) == if base == 10 then value else value % TWO32
    ensures IsNumeral(if value < 0 && base == 10 then Text(value, base)[1..] else Text(value, base), base)
  {
    var m := Magnitude(value, base);
    var s := Numeral(m, base);
    NumeralParses(m, base);
    UnsignedText(s, base);
    if value < 0 && base == 10 {
      assert Text(value, base) == "-" + s;
    } else {
      assert Text(value, base) == s;
    }
  }

  lemma UnsignedText(s: seq<char>, base: int)
    requires IsNumeral(s, base)
    ensures "" + s == s && ("-" + s)[1..] == s
    ensures ParseSigned(s, base) == Parse(s, base)
    ensures ParseSigned("-" + s, 10) == -Parse(s, 10)
  {
    assert ("-" + s)[1..] == s;
    assert DigitValue(s[0]) >= 0;
  }

  /** Different values have different texts. */
  lemma TextInjective(v: int, w: int, base: int)
    requires INT_MIN <= v <= INT_MAX && INT_MIN <= w <= INT_MAX && Base(base)
    requires Text(v, base) == Text(w, base)
    ensures v == w
  {
    TextParses(v, base);
    TextParses(w, base);
    if base != 10 { UnsignedInjective(v, w); }
  }

  lemma UnsignedInjective(v: int, w: int)
    requires INT_MIN <= v <= INT_MAX && INT_MIN <= w <= INT_MAX && v % TWO32 == w % TWO32
    ensures v == w
  {
  }

  ghost predicate AlwaysFits(base: int, size: nat)
    requires Base(base)
  {
    forall value :: INT_MIN <= value <= INT_MAX ==> |Text(value, base)| < size
  }

  /** The caller's buffer of 16 bytes is enough exactly from base 5 on. */
  lemma FitsSixteen(base: int)
    requires Base(base)
    ensures AlwaysFits(base, 16) <==> base >= 5
  {
    if base >= 5 {
      forall value | INT_MIN <= value <= INT_MAX
        ensures |Text(value, base)| < 16
      {
        TextBelow16(value, base);
      }
    } else {
      PowersBelow5(base);
      NumeralLength(TWO32 - 1, base, 15);
      assert |Text(-1, base)| >= 16;
    }
  }

  lemma PowersBelow5(base: int)
    requires 2 <= base < 5
    ensures Pow(base, 15) < TWO32
  {
    assert Pow(2, 15) == 0x8000;
    assert Pow(3, 15) == 14_348_907;
    assert Pow(4, 15) == 0x4000_0000;
  }

  lemma {:induction false} PowGrows(a: int, b: int, n: nat)
    requires 0 <= a <= b
    ensures 0 <= Pow(a, n) <= Pow(b, n)
  {
    if n > 0 {
      PowGrows(a, b, n - 1);
      assert 0 <= a * Pow(a, n - 1) <= b * Pow(b, n - 1);
    }
  }

  lemma Powers()
    ensures Pow(5, 15) == 30_517_578_125 && Pow(10, 10) == 10_000_000_000 && Pow(16, 8) == TWO32
  {
    assert Pow(5, 5) == 3125;
    assert Pow(5, 10) == 9_765_625;
    assert Pow(10, 5) == 100_000;
    assert Pow(16, 4) == 0x1_0000;
  }

  lemma TextBelow16(value: int, base: int)
    requires INT_MIN <= value <= INT_MAX && 5 <= base <= 36
    ensures |Text(value, base)| < 16
  {
    var v := Magnitude(value, base);
    if base == 10 {
      Powers();
      NumeralLength(v, 10, 10);
    } else {
      Powers();
      PowGrows(5, base, 15);
      NumeralLength(v, base, 15);
    }
  }

  /** In the two bases `vsnprintf` asks for, the text takes at most 11 and 8 characters. */
  lemma PrintfLengths(value: int)
    requires INT_MIN <= value <= INT_MAX
    ensures |Text(value, 10)| <= 11 && |Text(value, 16)| <= 8
  {
    Powers();
    NumeralLength(Magnitude(value, 10), 10, 10);
    NumeralLength(Magnitude(value, 16), 16, 8);
  }

  // --------------------------------------------------------------------- the code

  function Reversed(s: seq<char>): seq<char> {
    if s == [] then [] else Reversed(s[1..]) + [s[0]]
  }

  lemma {:induction false} ReversedLength(s: seq<char>)
    ensures |Reversed(s)| == |s|
  {
    if s != [] { ReversedLength(s[1..]); }
  }

  lemma {:induction false} ReversedIndex(s: seq<char>, k: int)
    requires 0 <= k < |s|
    ensures |Reversed(s)| == |s| && Reversed(s)[k] == s[|s| - 1 - k]
  {
    ReversedLength(s);
    ReversedLength(s[1..]);
    if k < |s| - 1 { ReversedIndex(s[1..], k); }
  }

  ghost predicate Terminated(buf: array<char>, n: int)
    reads buf
  {
    0 <= n < buf.Length && buf[n] == '\0' && (forall i :: 0 <= i < n ==> buf[i] != '\0')
  }

  /** `strrev`: reverses the characters before the terminating NUL in place. */
  method StrRev(s: array<char>, ghost n: int)
    requires Terminated(s, n)
    modifies s
    ensures Terminated(s, n) && s[..n] == Reversed(old(s[..n])) && s[n..] == old(s[n..])
  {
    if s[0] == '\0' {
      assert s[..n] == [];
      return;
    }
    var u := 0;
    while s[u + 1] != '\0'
      invariant 0 <= u < n
      decreases n - u
    {
      u := u + 1;
    }
    var t := 0;
    while t < u
      invariant 0 <= t <= u + 1 && t + u == n - 1
      invariant forall k :: 0 <= k < t || u < k < n ==> s[k] == old(s[n - 1 - k])
      invariant forall k :: t <= k <= u ==> s[k] == old(s[k])
      invariant s[n..] == old(s[n..])
    {
      s[t], s[u] := s[u], s[t];
      t, u := t + 1, u - 1;
    }
    ghost var was := old(s[..n]);
    forall k | 0 <= k < n
      ensures |Reversed(was)| == n && s[k] == Reversed(was)[k]
    {
      ReversedIndex(was, k);
    }
    ReversedLength(was);
    assert s[..n] == Reversed(was);
    assert s[n] == s[n..][0] == old(s[n]);
  }

  /** The digits as the loop makes them, the least significant first. */
  function DigitsUpward(v: nat, base: int): seq<char>
    requires Base(base)
    decreases v
  {
    Shrinks(v, base);
    [Digit(Remainder(v, base))] +
    if v < base then [] else DigitsUpward(Quotient(v, base), base)
  }

  lemma UpwardStep(v: nat, base: int)
    requires Base(base)
    ensures DigitsUpward(v, base) == [Digit(Remainder(v, base))] +
            if Quotient(v, base) == 0 then [] else DigitsUpward(Quotient(v, base), base)
    ensures Quotient(v, base) == 0 || Quotient(v, base) < v
  {
    Shrinks(v, base);
  }

  lemma {:induction false} UpwardIsReversed(v: nat, base: int)
    requires Base(base)
    ensures Reversed(DigitsUpward(v, base)) == Numeral(v, base)
    ensures |DigitsUpward(v, base)| == |Numeral(v, base)|
    decreases v
  {
    Shrinks(v, base);
    var d := [Digit(Remainder(v, base))];
    if v < base {
      assert d[1..] == [] && Reversed(d) == d;
    } else {
      var rest := DigitsUpward(Quotient(v, base), base);
      UpwardIsReversed(Quotient(v, base), base);
      assert (d + rest)[1..] == rest;
    }
  }

  lemma {:induction false} UpwardNotNul(v: nat, base: int)
    requires Base(base)
    ensures forall i :: 0 <= i < |DigitsUpward(v, base)| ==> DigitsUpward(v, base)[i] != '\0'
    decreases v
  {
    Shrinks(v, base);
    if v >= base {
      UpwardNotNul(Quotient(v, base), base);
    }
  }

  /** `base36[d]` */
  method TableDigit(d: int) returns (c: char)
    requires 0 <= d < 36
    ensures c == Digit(d)
  {
    var base36 := "0123456789abcdefghijklmnopqrstuvwxyz";
    c := base36[d];
  }

  /** One round of the digit loop */
  method PutDigit(val: nat, buf: array<char>, base: int, i: int) returns (rest: nat)
    requires Base(base) && 0 <= i < buf.Length
    modifies buf
    ensures rest == Quotient(val, base)
    ensures buf[i] == Digit(Remainder(val, base))
    ensures forall k :: 0 <= k < buf.Length && k != i ==> buf[k] == old(buf[k])
  {
    var c := TableDigit(Remainder(val, base));
    buf[i] := c;
    rest := Quotient(val, base);
  }

  /** The digit loop */
  method WriteDigits(v: nat, buf: array<char>, base: int) returns (i: int)
    requires Base(base) && |DigitsUpward(v, base)| <= buf.Length
    modifies buf
    ensures 0 <= i <= buf.Length && buf[..i] == DigitsUpward(v, base) && buf[i..] == old(buf[i..])
  {
    ghost var text := DigitsUpward(v, base);
    UpwardStep(v, base);
    var val := PutDigit(v, buf, base, 0);
    i := 1;
    while val != 0
      invariant 1 <= i <= |text|
      invariant text[i..] == if val == 0 then [] else DigitsUpward(val, base)
      invariant forall k :: 0 <= k < i ==> buf[k] == text[k]
      invariant forall k :: i <= k < buf.Length ==> buf[k] == old(buf[k])
      decreases val
    {
      UpwardStep(val, base);
      assert text[i..][1..] == text[i + 1..];
      val := PutDigit(val, buf, base, i);
      i := i + 1;
    }
    assert |text| == i;
  }

  /** `itoa_base`; null stands for a null pointer, given or returned. */
  method ItoaBase(value: int, buf: array?<char>, base: int) returns (r: array?<char>)
    requires INT_MIN <= value <= INT_MAX && base >= 2
    requires base == 10 ==> value != INT_MIN
    requires buf != null && base <= 36 ==> buf.Length > |Text(value, base)|
    modifies buf
    ensures buf == null || base > 36 ==> r == null
    ensures buf != null && base > 36 ==> buf[..] == old(buf[..])
    ensures buf != null && base <= 36 ==>
      var text := Text(value, base);
      && r == buf && Terminated(buf, |text|) && buf[..|text|] == text
      && buf[|text| + 1..] == old(buf[|text| + 1..])
  {
    if buf == null || base > 36 {
      return null;
    }
    var isneg := value < 0 && base == 10;
    var val := if isneg then -value else value % TWO32;
    var i := WriteText(val, isneg, buf, base);
    StrRev(buf, i);
    r := buf;
  }

  /** The text before it is reversed */
  method WriteText(val: nat, isneg: bool, buf: array<char>, base: int) returns (i: int)
    requires Base(base) && |Numeral(val, base)| + (if isneg then 1 else 0) < buf.Length
    modifies buf
    ensures Terminated(buf, i) && buf[i + 1..] == old(buf[i + 1..])
    ensures Reversed(buf[..i]) == (if isneg then "-" else "") + Numeral(val, base)
    ensures i == |Numeral(val, base)| + if isneg then 1 else 0
  {
    i := WriteSigned(val, isneg, buf, base);
    ghost var signed := Signed(val, isneg, base);
    PutChar(buf, i, '\0');
    SignedReversed(val, isneg, base);
    assert forall k :: 0 <= k < i ==> buf[k] == buf[..i][k] == signed[k];
  }

  /** The digits, least significant first, and the sign. */
  ghost function Signed(val: nat, isneg: bool, base: int): seq<char>
    requires Base(base)
  {
    if isneg then DigitsUpward(val, base) + ['-'] else DigitsUpward(val, base)
  }

  lemma SignedReversed(val: nat, isneg: bool, base: int)
    requires Base(base)
    ensures Reversed(Signed(val, isneg, base)) == (if isneg then "-" else "") + Numeral(val, base)
    ensures |Signed(val, isneg, base)| == |Numeral(val, base)| + if isneg then 1 else 0
    ensures forall k :: 0 <= k < |Signed(val, isneg, base)| ==> Signed(val, isneg, base)[k] != '\0'
  {
    UpwardIsReversed(val, base);
    UpwardNotNul(val, base);
    SignReversed(DigitsUpward(val, base));
    assert "" + Numeral(val, base) == Numeral(val, base);
  }

  method WriteSigned(val: nat, isneg: bool, buf: array<char>, base: int) returns (i: int)
    requires Base(base) && |Numeral(val, base)| + (if isneg then 1 else 0) < buf.Length
    modifies buf
    ensures 0 <= i < buf.Length && buf[..i] == Signed(val, isneg, base) && buf[i..] == old(buf[i..])
  {
    UpwardIsReversed(val, base);
    i := WriteDigits(val, buf, base);
    if isneg {
      PutChar(buf, i, '-');
      i := i + 1;
    }
  }

  /** `buf[i] = c` */
  method PutChar(buf: array<char>, i: int, c: char)
    requires 0 <= i < buf.Length
    modifies buf
    ensures buf[i] == c && buf[..i] == old(buf[..i]) && buf[..i + 1] == old(buf[..i]) + [c]
    ensures buf[i + 1..] == old(buf[i + 1..])
  {
    buf[i] := c;
  }

  lemma SignReversed(s: seq<char>)
    ensures Reversed(s + ['-']) == ['-'] + Reversed(s)
  {
    ReversedLength(s);
    ReversedLength(s + ['-']);
    forall k | 0 <= k < |s| + 1
      ensures Reversed(s + ['-'])[k] == (['-'] + Reversed(s))[k]
    {
      ReversedIndex(s + ['-'], k);
      if k > 0 { ReversedIndex(s, k - 1); }
    }
  }
}
