/** The 32-bit unsigned words of C, their shifts by a variable amount, and their reading as bit strings. */
module Word32 {
  import opened BitStrings

  /** `d << n` for any n: n single shifts. A shift by the full width or more yields 0. */
  function Shl(d: bv32, n: nat): bv32 {
    if n == 0 then d else Shl(d, n - 1) << 1
  }

  /** One right shift of a signed int, which copies the sign bit. */
  function Sar1(d: bv32): bv32 {
    (d >> 1) | (d & 0x8000_0000)
  }

  /** `d >> n` on a signed int, for any n. */
  function Sar(d: bv32, n: nat): bv32 {
    if n == 0 then d else Sar1(Sar(d, n - 1))
  }

  /** A word with one more bit shifted in from the right. */
  function Append(d: bv32, bit: bool): bv32 {
    if bit then (d << 1) | 1 else d << 1
  }

  /** The unsigned word that holds n, modulo 2^32. */
  function Word(n: nat): bv32 {
    if n == 0 then 0 else Append(Word(n / 2), n % 2 == 1)
  }

  /** The number an unsigned word holds. */
  function WordValue(d: bv32): nat {
    BitsValue(Bits(d))
  }

  /** The bit of weight 2^(31-i). */
  predicate Bit(d: bv32, i: nat) {
    Shl(d, i) >= 0x8000_0000
  }

  /** The 32 bits of a word, most significant first. */
  function Bits(d: bv32): (b: seq<bool>)
    ensures |b| == 32 && forall i :: 0 <= i < 32 ==> b[i] == Bit(d, i)
  {
    seq(32, i requires i >= 0 => Bit(d, i))
  }

  lemma {:induction false} ShlAdd(d: bv32, a: nat, b: nat)
    ensures Shl(d, a + b) == Shl(Shl(d, a), b)
  {
    if b > 0 { ShlAdd(d, a, b - 1); }
  }

  lemma {:induction false} ShlZero(n: nat)
    ensures Shl(0, n) == 0
  {
    if n > 0 { ShlZero(n - 1); }
  }

  lemma ShlSplit(d: bv32, n: nat)
    requires n >= 1
    ensures Shl(d, n) == Shl(d << 1, n - 1)
  {
    assert Shl(d, 1) == d << 1 by { assert Shl(d, 0) == d; }
    ShlAdd(d, 1, n - 1);
  }

  lemma ShlTwo(d: bv32)
    ensures Shl(d, 2) == d << 2
  {
    ShlSplit(d, 2);
    ShlSplit(d << 1, 1);
  }

  lemma ShlFour(d: bv32)
    ensures Shl(d, 4) == d << 4
  {
    ShlTwo(d);
    ShlTwo(d << 2);
    ShlAdd(d, 2, 2);
  }

  lemma ShlEight(d: bv32)
    ensures Shl(d, 8) == d << 8
  {
    ShlFour(d);
    ShlFour(d << 4);
    ShlAdd(d, 4, 4);
  }

  lemma ShlSixteen(d: bv32)
    ensures Shl(d, 16) == (d << 8) << 8
  {
    hide *;
    ShlEight(d);
    ShlEight(d << 8);
    ShlAdd(d, 8, 8);
  }

  lemma AllShiftedOut(d: bv32)
    ensures ((((d << 8) << 8) << 8) << 8) == 0
  {}

  lemma ShlThirtyTwo(d: bv32)
    ensures Shl(d, 32) == 0
  {
    hide *;
    ShlSixteen(d);
    ShlSixteen((d << 8) << 8);
    ShlAdd(d, 16, 16);
    AllShiftedOut(d);
  }

  lemma ShlOut(d: bv32, n: nat)
    requires n >= 32
    ensures Shl(d, n) == 0
  {
    hide *;
    ShlThirtyTwo(d);
    ShlAdd(d, 32, n - 32);
    ShlZero(n - 32);
  }

  // The same operations by name, so that they can be hidden.

  function Twice(d: bv32): bv32 { d << 1 }

  function Or(a: bv32, b: bv32): bv32 { a | b }

  function And(a: bv32, b: bv32): bv32 { a & b }

  lemma ShlNext(d: bv32, n: nat)
    ensures Shl(d, 0) == d
    ensures n > 0 ==> Shl(d, n) == Twice(Shl(d, n - 1))
  {}

  lemma TwiceOr(a: bv32, b: bv32)
    ensures Twice(Or(a, b)) == Or(Twice(a), Twice(b))
  {}

  lemma TwiceAnd(a: bv32, b: bv32)
    ensures Twice(And(a, b)) == And(Twice(a), Twice(b))
  {}

  lemma {:induction false} ShlOfOr(a: bv32, b: bv32, n: nat)
    ensures Shl(Or(a, b), n) == Or(Shl(a, n), Shl(b, n))
  {
    hide *;
    ShlNext(a, n);
    ShlNext(b, n);
    ShlNext(Or(a, b), n);
    if n > 0 {
      ShlOfOr(a, b, n - 1);
      TwiceOr(Shl(a, n - 1), Shl(b, n - 1));
    }
  }

  lemma {:induction false} ShlOfAnd(a: bv32, b: bv32, n: nat)
    ensures Shl(And(a, b), n) == And(Shl(a, n), Shl(b, n))
  {
    hide *;
    ShlNext(a, n);
    ShlNext(b, n);
    ShlNext(And(a, b), n);
    if n > 0 {
      ShlOfAnd(a, b, n - 1);
      TwiceAnd(Shl(a, n - 1), Shl(b, n - 1));
    }
  }

  lemma ShlOr(a: bv32, b: bv32, n: nat)
    ensures Shl(a | b, n) == Shl(a, n) | Shl(b, n)
  {
    ShlOfOr(a, b, n);
    hide Shl;
  }

  lemma ShlAnd(a: bv32, b: bv32, n: nat)
    ensures Shl(a & b, n) == Shl(a, n) & Shl(b, n)
  {
    ShlOfAnd(a, b, n);
    hide Shl;
  }

  lemma OneBelowTop(i: nat)
    requires i <= 30
    ensures !Bit(1, i)
  {
    assert !Bit(1, 0); assert !Bit(1, 1); assert !Bit(1, 2); assert !Bit(1, 3); assert !Bit(1, 4);
    assert !Bit(1, 5); assert !Bit(1, 6); assert !Bit(1, 7); assert !Bit(1, 8); assert !Bit(1, 9);
    assert !Bit(1, 10); assert !Bit(1, 11); assert !Bit(1, 12); assert !Bit(1, 13); assert !Bit(1, 14);
    assert !Bit(1, 15); assert !Bit(1, 16); assert !Bit(1, 17); assert !Bit(1, 18); assert !Bit(1, 19);
    assert !Bit(1, 20); assert !Bit(1, 21); assert !Bit(1, 22); assert !Bit(1, 23); assert !Bit(1, 24);
    assert !Bit(1, 25); assert !Bit(1, 26); assert !Bit(1, 27); assert !Bit(1, 28); assert !Bit(1, 29);
    assert !Bit(1, 30);
  }

  lemma OrTop(x: bv32, y: bv32)
    ensures (x | y) >= 0x8000_0000 <==> x >= 0x8000_0000 || y >= 0x8000_0000
  {}

  lemma BitOr(a: bv32, b: bv32, i: nat)
    ensures Bit(a | b, i) == (Bit(a, i) || Bit(b, i))
  {
    ShlOr(a, b, i);
    hide Shl;
    OrTop(Shl(a, i), Shl(b, i));
  }

  predicate IsOr(a: seq<bool>, b: seq<bool>, r: seq<bool>) {
    |a| == |b| == |r| && forall i :: 0 <= i < |r| ==> r[i] == (a[i] || b[i])
  }

  predicate IsAnd(a: seq<bool>, b: seq<bool>, r: seq<bool>) {
    |a| == |b| == |r| && forall i :: 0 <= i < |r| ==> r[i] == (a[i] && b[i])
  }

  lemma BitsOr(a: bv32, b: bv32)
    ensures IsOr(Bits(a), Bits(b), Bits(a | b))
  {
    hide Bits, Bit;
    forall i | 0 <= i < 32 ensures Bits(a | b)[i] == (Bits(a)[i] || Bits(b)[i]) { BitOr(a, b, i); }
  }

  lemma BitsAnd(a: bv32, b: bv32)
    ensures IsAnd(Bits(a), Bits(b), Bits(a & b))
  {
    forall i: nat | i < 32 ensures Bit(a & b, i) == (Bit(a, i) && Bit(b, i)) { ShlAnd(a, b, i); }
  }

  lemma BitShl(d: bv32, n: nat, i: nat)
    ensures Bit(Shl(d, n), i) == Bit(d, n + i)
    ensures n + i >= 32 ==> !Bit(d, n + i)
  {
    ShlAdd(d, n, i);
    if n + i >= 32 { ShlOut(d, n + i); }
  }

  lemma BitsShl(d: bv32, n: nat)
    requires n <= 32
    ensures Bits(Shl(d, n)) == Bits(d)[n..] + Zeros(n)
  {
    forall i | 0 <= i < 32 ensures Bits(Shl(d, n))[i] == (Bits(d)[n..] + Zeros(n))[i] {
      BitShl(d, n, i);
    }
  }

  /** The lowest bit does not show above position 31. */
  lemma BitDropsLowest(d: bv32, i: nat)
    requires i <= 30
    ensures Bit(d & 0xffff_fffe, i) == Bit(d, i)
  {
    SplitLowest(d);
    if d & 1 == 1 {
      BitOr(d & 0xffff_fffe, 1, i);
      OneBelowTop(i);
    }
  }

  lemma SplitLowest(d: bv32)
    ensures d & 1 == 1 ==> d == (d & 0xffff_fffe) | 1
    ensures d & 1 != 1 ==> d == d & 0xffff_fffe
  {}

  lemma BitShr1(d: bv32, i: nat)
    requires i <= 30
    ensures Bit(d >> 1, i + 1) == Bit(d, i)
  {
    HalveDouble(d);
    assert Shl(d >> 1, 1) == (d >> 1) << 1;
    ShlAdd(d >> 1, 1, i);
    BitDropsLowest(d, i);
  }

  lemma HalveDouble(d: bv32)
    ensures (d >> 1) << 1 == d & 0xffff_fffe
    ensures (d >> 1) <= 0x7fff_ffff
  {}

  lemma BitSar1(d: bv32, i: nat)
    requires i <= 30
    ensures Bit(Sar1(d), i + 1) == Bit(d, i)
  {
    SignBitAlone(d, i + 1);
    BitOr(d >> 1, d & 0x8000_0000, i + 1);
    BitShr1(d, i);
  }

  lemma SignBitAlone(d: bv32, i: nat)
    requires 1 <= i
    ensures !Bit(d & 0x8000_0000, i)
  {
    SignBit(d);
    ShlSplit(d & 0x8000_0000, i);
    ShlZero(i - 1);
  }

  lemma SignBit(d: bv32)
    ensures (d & 0x8000_0000) << 1 == 0
  {}

  /** A word is determined by its bits. */
  lemma BitsInjective(a: bv32, b: bv32)
    requires Bits(a) == Bits(b)
    ensures a == b
  {
    forall i: nat | i < 32 ensures Bit(a, i) == Bit(b, i) { assert Bits(a)[i] == Bits(b)[i]; }
    ShlOut(a, 32);
    ShlOut(b, 32);
    ShlInjective(a, b, 32);
  }

  lemma {:induction false} ShlInjective(a: bv32, b: bv32, n: nat)
    requires forall i: nat :: i < n ==> Bit(a, i) == Bit(b, i)
    requires Shl(a, n) == Shl(b, n)
    ensures a == b
  {
    if n > 0 {
      assert Bit(a, n - 1) == Bit(b, n - 1);
      ShlInjective(a, b, n - 1);
    }
  }

  lemma {:induction false} BitSar(d: bv32, n: nat, i: nat)
    requires n <= i < 32
    ensures Bit(Sar(d, n), i) == Bit(d, i - n)
  {
    if n > 0 {
      BitSar1(Sar(d, n - 1), i - 1);
      BitSar(d, n - 1, i - 1);
    }
  }

  lemma BitShl1(d: bv32, i: nat)
    ensures Bit(d << 1, i) == Bit(d, i + 1)
  {
    ShlSplit(d, i + 1);
  }

  /** Shifting in one more bit from the right. */
  lemma BitAppend(d: bv32, bit: bool, i: nat)
    requires i < 32
    ensures Bit(Append(d, bit), i) == if i == 31 then bit else Bit(d, i + 1)
  {
    if bit {
      BitOr(d << 1, 1, i);
      BitOfOne(i);
    }
    BitShl1(d, i);
    if i == 31 { BitPastEnd(d, 32); }
  }

  lemma BitsAppend(d: bv32, bit: bool)
    ensures Bits(Append(d, bit)) == Bits(d)[1..] + [bit]
  {
    forall i | 0 <= i < 32 ensures Bits(Append(d, bit))[i] == (Bits(d)[1..] + [bit])[i] {
      BitAppend(d, bit, i);
    }
  }

  lemma BitOfOne(i: nat)
    requires i < 32
    ensures Bit(1, i) == (i == 31)
  {
    if i <= 30 { OneBelowTop(i); } else { OneAtBottom(); }
  }

  lemma OneAtBottom()
    ensures Bit(1, 31)
  {
    ShlEight(1); ShlEight(0x100); ShlEight(0x1_0000);
    ShlAdd(1, 8, 8); ShlAdd(1, 16, 8); ShlAdd(1, 24, 7);
    assert Shl(0x100_0000, 7) == 0x8000_0000;
  }

  lemma BitPastEnd(d: bv32, i: nat)
    requires i >= 32
    ensures !Bit(d, i)
  {
    ShlOut(d, i);
  }

  /** The bits of a word made from a number are the low 32 bits of the number. */
  lemma {:induction false} BitsWord(n: nat)
    ensures Bits(Word(n)) == NatBits(n, 32)
    decreases n
  {
    if n == 0 {
      forall i: nat | i < 32 ensures !Bit(0, i) { ShlZero(i); }
      NatBitsHigh(0, 32, 0);
    } else {
      BitsWord(n / 2);
      BitsAppend(Word(n / 2), n % 2 == 1);
      NatBitsSuffix(n / 2, 31);
    }
  }

  /** The low mask of C, `(1 << n) - 1`. */
  function LowMask(n: nat): bv32 {
    MinusOne(Shl(1, n))
  }

  function MinusOne(d: bv32): bv32 {
    d - 1
  }

  lemma MinusOneDoubles(x: bv32)
    ensures MinusOne(x << 1) == Append(MinusOne(x), true)
  {}

  lemma {:induction false} BitsLowMask(n: nat)
    requires n <= 32
    ensures Bits(LowMask(n)) == Zeros(32 - n) + Ones(n)
  {
    if n == 0 {
      assert LowMask(0) == 0;
      forall i | 0 <= i < 32 ensures !Bits(0)[i] { ShlZero(i); }
    } else {
      BitsLowMask(n - 1);
      LowMaskStep(n);
      BitsAppend(LowMask(n - 1), true);
    }
  }

  lemma LowMaskStep(n: nat)
    requires n >= 1
    ensures LowMask(n) == Append(LowMask(n - 1), true)
  {
    MinusOneDoubles(Shl(1, n - 1));
  }
}
