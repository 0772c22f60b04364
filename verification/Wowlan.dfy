/** Wake-on-WLAN patterns: the operating system describes an Ethernet frame by bytes and a bit mask, the
    hardware wants a mask for the frame as it sees it, and a checksum of the selected bytes. */
module Wowlan {
  import opened Ieee80211
  import opened Michael
  import opened Words
  import opened Wrappers

  const MAX_PATTERN := 128
  const MASK_BYTES := 16

  // ---------------------------------------------------------------------------------------------
  // Bits

  function BitMask(r: nat): bv8
    requires r < 8
  {
    if r == 0 then 1 else if r == 1 then 2 else if r == 2 then 4 else if r == 3 then 8
    else if r == 4 then 16 else if r == 5 then 32 else if r == 6 then 64 else 128
  }

  predicate BitOf(b: bv8, r: nat)
    requires r < 8
  {
    b & BitMask(r) != 0
  }

  /** Bit k of a mask; there are none behind its end. */
  predicate Bit(mask: Bytes, k: nat) {
    k / 8 < |mask| && BitOf(mask[k / 8], k % 8)
  }

  function ShiftedByte(a: bv8, b: bv8): bv8 { (a >> 6) | ((b & 0x3f) << 2) }
  function LastByte(a: bv8): bv8 { (a >> 6) & 0x3f }
  function WithoutLow(a: bv8): bv8 { a & 0xc0 }

  lemma {:induction false} ShiftedBit(a: bv8, b: bv8, r: nat)
    requires r < 8
    ensures BitOf(ShiftedByte(a, b), r) == if r < 2 then BitOf(a, r + 6) else BitOf(b, r - 2)
  {
    assert r == 0 || r == 1 || r == 2 || r == 3 || r == 4 || r == 5 || r == 6 || r == 7;
  }

  lemma {:induction false} LastBit(a: bv8, r: nat)
    requires r < 8
    ensures BitOf(LastByte(a), r) == (r < 2 && BitOf(a, r + 6))
  {
    assert r == 0 || r == 1 || r == 2 || r == 3 || r == 4 || r == 5 || r == 6 || r == 7;
  }

  lemma {:induction false} LowBits(a: bv8, r: nat)
    requires r < 8
    ensures BitOf(WithoutLow(a), r) == (6 <= r && BitOf(a, r))
  {
    assert r == 0 || r == 1 || r == 2 || r == 3 || r == 4 || r == 5 || r == 6 || r == 7;
  }

  // ---------------------------------------------------------------------------------------------
  // The mask

  /** Byte j of the shifted mask. */
  function HwByte(os: Bytes, j: nat): bv8
    requires j < |os|
  {
    var b := if j < |os| - 1 then ShiftedByte(os[j], os[j + 1]) else LastByte(os[j]);
    if j == 0 then WithoutLow(b) else b
  }

  function HwMask(os: Bytes): (hw: Bytes)
    requires |os| <= MASK_BYTES
    ensures |hw| == MASK_BYTES
  {
    seq(MASK_BYTES, j requires 0 <= j < MASK_BYTES => if j < |os| then HwByte(os, j) else 0)
  }

  lemma {:induction false} Position(k: nat)
    ensures k % 8 < 8
    ensures if k % 8 < 2 then (k + 6) / 8 == k / 8 && (k + 6) % 8 == k % 8 + 6
            else (k + 6) / 8 == k / 8 + 1 && (k + 6) % 8 == k % 8 - 2
    ensures k < 6 <==> k / 8 == 0 && k % 8 < 6
  {
  }

  /** The hardware's bit k is the operating system's bit k + 6, except that the first six are clear. */
  lemma {:induction false} MaskShifted(os: Bytes, k: nat)
    requires |os| <= MASK_BYTES
    ensures Bit(HwMask(os), k) <==> 6 <= k && Bit(os, k + 6)
  {
    hide BitOf, ShiftedByte, LastByte, WithoutLow;
    Position(k);
    var j, r := k / 8, k % 8;
    if j < |os| {
      var b := if j < |os| - 1 then ShiftedByte(os[j], os[j + 1]) else LastByte(os[j]);
      LowBits(b, r);
      LastBit(os[j], r);
      if j < |os| - 1 {
        ShiftedBit(os[j], os[j + 1], r);
      }
    } else {
      NoBit(r);
    }
  }

  lemma {:induction false} NoBit(r: nat)
    requires r < 8
    ensures !BitOf(0, r)
  {
  }

  // ---------------------------------------------------------------------------------------------
  // The bytes that are checksummed

  /** Bytes j < n of the pattern that the mask selects, from the thirteenth on. */
  function Content(pattern: Bytes, os: Bytes, n: nat): Bytes
    requires n <= |pattern|
  {
    if n <= 12 then [] else Content(pattern, os, n - 1) + if Bit(os, n - 1) then [pattern[n - 1]] else []
  }

  /** A mask that selects everything, or one byte: the addresses, twelve bytes, are never checksummed. */
  lemma {:induction false} ContentOfMask(pattern: Bytes, os: Bytes, j: nat, n: nat)
    requires 12 <= j < |pattern| && 12 <= n <= |pattern|
    ensures (forall k :: 12 <= k < n ==> Bit(os, k)) ==> Content(pattern, os, n) == pattern[12..n]
    ensures (forall k :: 12 <= k < n ==> (Bit(os, k) <==> k == j)) ==>
              Content(pattern, os, n) == if j < n then [pattern[j]] else []
  {
    hide Bit;
    if n > 12 {
      ContentOfMask(pattern, os, j, n - 1);
      assert pattern[12..n] == pattern[12..n - 1] + [pattern[n - 1]];
    }
  }

  /** What the hardware will take: the bytes six behind the set bits below k of its own mask. */
  function HwContent(pattern: Bytes, hw: Bytes, k: nat): Bytes {
    if k == 0 then []
    else HwContent(pattern, hw, k - 1) + if Bit(hw, k - 1) && k + 5 < |pattern| then [pattern[k + 5]] else []
  }

  /** The checksummed bytes are the ones the hardware selects. */
  lemma {:induction false} ContentSelected(pattern: Bytes, os: Bytes, n: nat)
    requires |os| <= MASK_BYTES && 12 <= n + 6 <= |pattern|
    ensures Content(pattern, os, n + 6) == HwContent(pattern, HwMask(os), n)
    decreases n
  {
    hide Bit, HwMask;
    MaskShifted(os, n - 1);
    if n > 6 {
      ContentSelected(pattern, os, n - 1);
    } else {
      LowSelectsNothing(pattern, os, n);
    }
  }

  lemma {:induction false} LowSelectsNothing(pattern: Bytes, os: Bytes, k: nat)
    requires |os| <= MASK_BYTES && k <= 6
    ensures HwContent(pattern, HwMask(os), k) == []
  {
    hide Bit, HwMask;
    if k > 0 {
      MaskShifted(os, k - 1);
      LowSelectsNothing(pattern, os, k - 1);
    }
  }

  /** The hardware selects nothing but pattern bytes exactly when the operating system's mask has no bit
      beyond the pattern. */
  lemma {:induction false} SelectsOnlyPattern(pattern: Bytes, os: Bytes)
    requires |os| <= MASK_BYTES && 12 <= |pattern|
    ensures (forall k: nat :: Bit(HwMask(os), k) ==> k + 6 < |pattern|) <==> (forall j: nat :: Bit(os, j) ==> j < |pattern|)
  {
    hide Bit, HwMask;
    if forall k: nat :: Bit(HwMask(os), k) ==> k + 6 < |pattern| {
      forall j: nat | Bit(os, j)
        ensures j < |pattern|
      {
        if j >= |pattern| {
          MaskShifted(os, j - 6);
        }
      }
    }
    if forall j: nat :: Bit(os, j) ==> j < |pattern| {
      forall k: nat | Bit(HwMask(os), k)
        ensures k + 6 < |pattern|
      {
        MaskShifted(os, k);
      }
    }
  }

  // ---------------------------------------------------------------------------------------------
  // The checksum

  function Shl(a: bv16): bv16 { a << 1 }
  function Low15(a: bv16): bv16 { a & 0x7fff }
  predicate Top(crc: bv16) { crc & 0x8000 != 0 }
  function Divisor(on: bool): bv16 { if on then 0x1021 else 0 }

  /** One bit: shift, and divide by x^16 + x^12 + x^5 + 1. */
  function CrcBit(crc: bv16, bit: bool): bv16 {
    Xor16(Shl(crc), Divisor(Top(crc) != bit))
  }

  /** Bits of the byte below n, the lowest first. */
  function CrcBits(crc: bv16, data: bv8, n: nat): bv16
    requires n <= 8
  {
    if n == 0 then crc else CrcBit(CrcBits(crc, data, n - 1), BitOf(data, n - 1))
  }

  function CrcByte(crc: bv16, data: bv8): bv16 {
    CrcBits(crc, data, 8)
  }

  function CrcAll(crc: bv16, data: Bytes): bv16 {
    if data == [] then crc else CrcByte(CrcAll(crc, data[..|data| - 1]), data[|data| - 1])
  }

  function Checksum(data: Bytes): bv16 {
    !CrcAll(0xffff, data)
  }

  lemma {:induction false} ShlLinear(a: bv16, b: bv16)
    ensures Shl(Xor16(a, b)) == Xor16(Shl(a), Shl(b))
  {
  }

  lemma {:induction false} TopLinear(a: bv16, b: bv16)
    ensures Top(Xor16(a, b)) <==> (Top(a) != Top(b))
  {
  }

  lemma {:induction false} DivisorLinear(x: bool, y: bool)
    ensures Divisor(x != y) == Xor16(Divisor(x), Divisor(y))
  {
  }

  lemma {:induction false} CrcBitLinear(a: bv16, b: bv16, x: bool, y: bool)
    ensures CrcBit(Xor16(a, b), x != y) == Xor16(CrcBit(a, x), CrcBit(b, y))
  {
    hide Xor16, Shl, Top, Divisor;
    ShlLinear(a, b);
    TopLinear(a, b);
    var p, q := Top(a) != x, Top(b) != y;
    assert (Top(Xor16(a, b)) != (x != y)) == (p != q);
    DivisorLinear(p, q);
    Xor16Swap(Shl(a), Shl(b), Divisor(p), Divisor(q));
  }

  lemma {:induction false} LowestBit(a: bv16, p: bool)
    ensures Xor16(Shl(a), Divisor(p)) & 1 == if p then 1 else 0
  {
    calc {
      Xor16(Shl(a), Divisor(p)) & 1;
      ((a << 1) ^ (if p then 0x1021 else 0)) & 1;
      if p then 1 else 0;
    }
  }

  lemma {:induction false} ShlCancels(a: bv16, b: bv16)
    requires Shl(a) == Shl(b)
    ensures Low15(a) == Low15(b)
  {
  }

  lemma {:induction false} ShlKeepsLow(a: bv16, b: bv16, p: bool, q: bool)
    requires Xor16(Shl(a), Divisor(p)) == Xor16(Shl(b), Divisor(q))
    ensures p == q && Low15(a) == Low15(b)
  {
    hide Xor16, Shl, Low15, Divisor;
    LowestBit(a, p);
    LowestBit(b, q);
    Xor16Cancels(Shl(a), Shl(b), Divisor(p));
    ShlCancels(a, b);
  }

  lemma {:induction false} LowAndTop(a: bv16, b: bv16)
    requires Low15(a) == Low15(b) && Top(a) == Top(b)
    ensures a == b
  {
  }

  /** For a known bit the step can be undone, and for a known state it tells the bits apart. */
  lemma {:induction false} CrcBitInjective(a: bv16, b: bv16, x: bool, y: bool)
    requires CrcBit(a, x) == CrcBit(b, y)
    ensures Low15(a) == Low15(b) && (a == b <==> x == y)
  {
    hide Xor16, Shl, Top, Divisor, Low15;
    ShlKeepsLow(a, b, Top(a) != x, Top(b) != y);
    if x == y {
      LowAndTop(a, b);
    }
  }

  function XorByte(x: bv8, y: bv8): bv8 { x ^ y }

  lemma {:induction false} BitLinear(x: bv8, y: bv8, r: nat)
    requires r < 8
    ensures BitOf(XorByte(x, y), r) <==> (BitOf(x, r) != BitOf(y, r))
  {
    hide BitOf, XorByte;
    if r < 4 {
      LowBitLinear(x, y, r);
    } else {
      HighBitLinear(x, y, r);
    }
  }

  lemma {:induction false} LowBitLinear(x: bv8, y: bv8, r: nat)
    requires r < 4
    ensures BitOf(XorByte(x, y), r) <==> (BitOf(x, r) != BitOf(y, r))
  {
    assert r == 0 || r == 1 || r == 2 || r == 3;
  }

  lemma {:induction false} HighBitLinear(x: bv8, y: bv8, r: nat)
    requires 4 <= r < 8
    ensures BitOf(XorByte(x, y), r) <==> (BitOf(x, r) != BitOf(y, r))
  {
    assert r == 4 || r == 5 || r == 6 || r == 7;
  }

  lemma {:induction false} CrcBitsLinear(a: bv16, b: bv16, x: bv8, y: bv8, n: nat)
    requires n <= 8
    ensures CrcBits(Xor16(a, b), XorByte(x, y), n) == Xor16(CrcBits(a, x, n), CrcBits(b, y, n))
  {
    hide Xor16, XorByte, CrcBit, BitOf;
    if n > 0 {
      CrcBitsLinear(a, b, x, y, n - 1);
      BitLinear(x, y, n - 1);
      CrcBitLinear(CrcBits(a, x, n - 1), CrcBits(b, y, n - 1), BitOf(x, n - 1), BitOf(y, n - 1));
    }
  }

  function XorAll(x: Bytes, y: Bytes): (z: Bytes)
    requires |x| == |y|
    ensures |z| == |x| && forall i :: 0 <= i < |z| ==> z[i] == XorByte(x[i], y[i])
  {
    seq(|x|, i requires 0 <= i < |x| => XorByte(x[i], y[i]))
  }

  /** The checksum register is linear in its start and in the bytes. */
  lemma {:induction false} CrcLinear(a: bv16, b: bv16, x: Bytes, y: Bytes)
    requires |x| == |y|
    ensures CrcAll(Xor16(a, b), XorAll(x, y)) == Xor16(CrcAll(a, x), CrcAll(b, y))
    decreases |x|
  {
    hide Xor16, XorByte, CrcBits;
    if x != [] {
      var n := |x| - 1;
      CrcLinear(a, b, x[..n], y[..n]);
      assert XorAll(x, y)[..n] == XorAll(x[..n], y[..n]);
      CrcBitsLinear(CrcAll(a, x[..n]), CrcAll(b, y[..n]), x[n], y[n], 8);
    }
  }

  function ShlBy(a: bv16, k: nat): bv16
    requires k <= 8
  {
    if k == 0 then a else if k == 1 then a << 1 else if k == 2 then a << 2 else if k == 3 then a << 3 else if k == 4 then a << 4
    else if k == 5 then a << 5 else if k == 6 then a << 6 else if k == 7 then a << 7 else a << 8
  }

  lemma {:induction false} ShlByNext(a: bv16, k: nat)
    requires k < 8
    ensures ShlBy(Shl(a), k) == ShlBy(a, k + 1)
  {
    assert k == 0 || k == 1 || k == 2 || k == 3 || k == 4 || k == 5 || k == 6 || k == 7;
  }

  lemma {:induction false} ShlByOdd(a: bv16, k: nat)
    requires k < 8 && ShlBy(a, k) == 0
    ensures a & 1 == 0
  {
    assert k == 0 || k == 1 || k == 2 || k == 3 || k == 4 || k == 5 || k == 6 || k == 7;
  }

  lemma {:induction false} OneBack(a: bv16, x: bool, k: nat)
    requires k < 8 && ShlBy(CrcBit(a, x), k) == 0
    ensures Top(a) == x && ShlBy(a, k + 1) == 0
  {
    hide Xor16, Shl, Top, Divisor, ShlBy;
    ShlByOdd(CrcBit(a, x), k);
    LowestBit(a, Top(a) != x);
    XorZero(Shl(a));
    ShlByNext(a, k);
  }

  lemma {:induction false} XorZero(a: bv16)
    ensures Xor16(a, Divisor(false)) == a
  {
  }

  lemma {:induction false} BitsBack(a: bv16, d: bv8, n: nat)
    requires n <= 8 && CrcBits(a, d, 8) == 0
    ensures ShlBy(CrcBits(a, d, n), 8 - n) == 0
    ensures n < 8 ==> Top(CrcBits(a, d, n)) == BitOf(d, n)
    decreases 8 - n
  {
    hide CrcBit, BitOf, Top, ShlBy;
    if n == 8 {
      ShlByNone(CrcBits(a, d, 8));
    } else {
      BitsBack(a, d, n + 1);
      OneBack(CrcBits(a, d, n), BitOf(d, n), 7 - n);
    }
  }

  lemma {:induction false} ShlByNone(a: bv16)
    ensures ShlBy(a, 0) == a
  {
  }

  lemma {:induction false} StaysZero(d: bv8, n: nat)
    requires n <= 8 && CrcBits(0, d, 8) == 0
    ensures CrcBits(0, d, n) == 0
    ensures forall r :: 0 <= r < n ==> !BitOf(d, r)
  {
    hide CrcBit, BitOf, Top;
    if n > 0 {
      StaysZero(d, n - 1);
      BitsBack(0, d, n - 1);
      ZeroStep();
    }
  }

  lemma {:induction false} ZeroStep()
    ensures !Top(0) && CrcBit(0, false) == 0
  {
  }

  lemma {:induction false} NoBits(d: bv8)
    requires forall r :: 0 <= r < 8 ==> !BitOf(d, r)
    ensures d == 0
  {
    assert !BitOf(d, 0) && !BitOf(d, 1) && !BitOf(d, 2) && !BitOf(d, 3) && !BitOf(d, 4) && !BitOf(d, 5) && !BitOf(d, 6) && !BitOf(d, 7);
  }

  lemma {:induction false} XorByteZero(x: bv8, y: bv8)
    requires XorByte(x, y) == 0
    ensures x == y
  {
  }

  /** From one state different bytes lead to different states. */
  lemma {:induction false} ByteInjective(a: bv16, x: bv8, y: bv8)
    requires CrcByte(a, x) == CrcByte(a, y)
    ensures x == y
  {
    hide Xor16, XorByte, CrcBits, BitOf;
    CrcBitsLinear(a, a, x, y, 8);
    Xor16Self(a);
    Xor16Self(CrcByte(a, x));
    StaysZero(XorByte(x, y), 8);
    NoBits(XorByte(x, y));
    XorByteZero(x, y);
  }

  /** Under the same byte different states stay different. */
  lemma {:induction false} StateInjective(a: bv16, b: bv16, x: bv8, n: nat)
    requires n <= 8 && CrcBits(a, x, n) == CrcBits(b, x, n)
    ensures a == b
  {
    hide CrcBit, BitOf;
    if n > 0 {
      CrcBitInjective(CrcBits(a, x, n - 1), CrcBits(b, x, n - 1), BitOf(x, n - 1), BitOf(x, n - 1));
      StateInjective(a, b, x, n - 1);
    }
  }

  /** A selection with one byte changed has a different checksum. */
  lemma {:induction false} OneByteShows(a: bv16, x: Bytes, i: nat, b: bv8)
    requires i < |x| && b != x[i]
    ensures CrcAll(a, x[i := b]) != CrcAll(a, x)
    decreases |x|
  {
    hide CrcBits;
    var n := |x| - 1;
    var y := x[i := b];
    if i == n {
      assert y[..n] == x[..n];
      if CrcAll(a, x) == CrcAll(a, y) {
        ByteInjective(CrcAll(a, x[..n]), x[n], b);
      }
    } else {
      assert y[..n] == x[..n][i := b];
      OneByteShows(a, x[..n], i, b);
      if CrcAll(a, x) == CrcAll(a, y) {
        StateInjective(CrcAll(a, x[..n]), CrcAll(a, y[..n]), x[n], 8);
      }
    }
  }

  lemma {:induction false} FirstBits()
    ensures CrcBit(0xffff, true) == 0xfffe
    ensures CrcBit(0xfffe, false) == 0xefdd
    ensures CrcBit(0xefdd, false) == 0xcf9b
    ensures CrcBit(0xcf9b, false) == 0x8f17
    ensures CrcBit(0x8f17, true) == 0x1e2e
    ensures CrcBit(0x1e2e, true) == 0x2c7d
    ensures CrcBit(0x2c7d, false) == 0x58fa
    ensures CrcBit(0x58fa, false) == 0xb1f4
  {
  }

  lemma {:induction false} FirstByte()
    ensures CrcByte(0xffff, 0x31) == 0xb1f4
  {
    FirstBits();
    hide CrcBit;
  }

  lemma {:induction false} SecondBits()
    ensures CrcBit(0xb1f4, false) == 0x73c9
    ensures CrcBit(0x73c9, true) == 0xf7b3
    ensures CrcBit(0xf7b3, false) == 0xff47
    ensures CrcBit(0xff47, false) == 0xeeaf
    ensures CrcBit(0xeeaf, true) == 0xdd5e
    ensures CrcBit(0xdd5e, true) == 0xbabc
    ensures CrcBit(0xbabc, false) == 0x6559
    ensures CrcBit(0x6559, false) == 0xcab2
  {
  }

  lemma {:induction false} SecondByte()
    ensures CrcByte(0xb1f4, 0x32) == 0xcab2
  {
    SecondBits();
    hide CrcBit;
  }

  /** The checksum of the digits 1 and 2, from a register of all ones, inverted at the end. */
  lemma {:induction false} ChecksumVector()
    ensures Checksum([]) == 0x0000 && Checksum([0x31, 0x32]) == 0x354d
  {
    hide CrcByte;
    FirstByte();
    SecondByte();
    var d: Bytes := [0x31, 0x32];
    assert d[..0] == [] && d[..2] == d;
    CrcNext(0xffff, d, 0);
    CrcNext(0xffff, d, 1);
  }

  lemma {:induction false} CrcNext(a: bv16, d: Bytes, n: nat)
    requires n < |d|
    ensures CrcAll(a, d[..n + 1]) == CrcByte(CrcAll(a, d[..n]), d[n])
  {
    hide CrcByte;
    assert d[..n + 1][..n] == d[..n];
  }

  // ---------------------------------------------------------------------------------------------
  // The driver's routines

  /** Set or clear bits. */
  function PutBits(v: bv16, mask: bv16, on: bool): bv16 {
    if on then v | mask else v & !mask
  }

  /** The bit-by-bit update of the driver. */
  function Updated(crc: bv16, s: bool): bv16 {
    PutBits(PutBits(PutBits(Shl(crc), 1, s), 0x1000, (crc & 0x0800 != 0) != s), 0x20, (crc & 0x10 != 0) != s)
  }

  lemma {:induction false} PatchedOn(crc: bv16)
    ensures PutBits(PutBits((crc << 1) | 1, 0x1000, crc & 0x0800 == 0), 0x20, crc & 0x10 == 0) == (crc << 1) ^ 0x1021
  {
  }

  lemma {:induction false} PatchedOff(crc: bv16)
    ensures PutBits(PutBits((crc << 1) & 0xfffe, 0x1000, crc & 0x0800 != 0), 0x20, crc & 0x10 != 0) == crc << 1
  {
  }

  lemma {:induction false} LowestPut(crc: bv16)
    ensures PutBits(Shl(crc), 1, true) == (crc << 1) | 1 && PutBits(Shl(crc), 1, false) == (crc << 1) & 0xfffe
  {
  }

  lemma {:induction false} DividedOnOff(crc: bv16)
    ensures Xor16(Shl(crc), Divisor(true)) == (crc << 1) ^ 0x1021 && Xor16(Shl(crc), Divisor(false)) == crc << 1
  {
  }

  lemma {:induction false} BitwiseOn(crc: bv16)
    ensures Updated(crc, true) == Xor16(Shl(crc), Divisor(true))
  {
    hide PutBits, Shl, Xor16, Divisor;
    LowestPut(crc);
    PatchedOn(crc);
    DividedOnOff(crc);
    assert ((crc & 0x0800 != 0) != true) == (crc & 0x0800 == 0);
    assert ((crc & 0x10 != 0) != true) == (crc & 0x10 == 0);
  }

  lemma {:induction false} BitwiseOff(crc: bv16)
    ensures Updated(crc, false) == Xor16(Shl(crc), Divisor(false))
  {
    hide PutBits, Shl, Xor16, Divisor;
    LowestPut(crc);
    PatchedOff(crc);
    DividedOnOff(crc);
    assert ((crc & 0x0800 != 0) != false) == (crc & 0x0800 != 0);
    assert ((crc & 0x10 != 0) != false) == (crc & 0x10 != 0);
  }

  /** Shifting and patching single bits is division by the CCITT polynomial. */
  lemma {:induction false} BitwiseStep(crc: bv16, bit: bool)
    ensures Updated(crc, Top(crc) != bit) == CrcBit(crc, bit)
  {
    hide Updated, Xor16, Shl, Divisor, Top;
    if Top(crc) != bit {
      BitwiseOn(crc);
    } else {
      BitwiseOff(crc);
    }
  }

  /** `crc16_ccitt` */
  method Crc16Ccitt(data: bv8, start: bv16) returns (crc: bv16)
    ensures crc == CrcByte(start, data)
  {
    hide BitOf, PutBits, Shl, Top, CrcBit;
    crc := start;
    for i := 0 to 8
      invariant crc == CrcBits(start, data, i)
    {
      var shiftIn := Top(crc) != BitOf(data, i);
      var result := Shl(crc);
      result := PutBits(result, 1, shiftIn);
      result := PutBits(result, 0x1000, (crc & 0x0800 != 0) != shiftIn);
      result := PutBits(result, 0x20, (crc & 0x10 != 0) != shiftIn);
      BitwiseStep(crc, BitOf(data, i));
      crc := result;
    }
  }

  /** `_calculate_wol_pattern_crc` */
  method CalculateWolPatternCrc(pattern: Bytes) returns (crc: bv16)
    ensures crc == Checksum(pattern)
  {
    hide CrcByte;
    crc := 0xffff;
    assert pattern[..0] == [];
    for i := 0 to |pattern|
      invariant crc == CrcAll(0xffff, pattern[..i])
    {
      assert pattern[..i + 1][..i] == pattern[..i];
      crc := Crc16Ccitt(pattern[i], crc);
    }
    assert pattern[..|pattern|] == pattern;
    crc := !crc;
  }

  /** The mask loop: byte by byte, then the low bits of the first byte. */
  method TranslateMask(maskOs: Bytes) returns (hw: Bytes)
    requires 0 < |maskOs| <= MASK_BYTES
    ensures hw == HwMask(maskOs)
  {
    hide ShiftedByte, LastByte, WithoutLow;
    var mask := new bv8[MASK_BYTES](_ => 0);
    var n := |maskOs|;
    for j := 0 to n - 1
      invariant forall i :: 0 <= i < j ==> mask[i] == ShiftedByte(maskOs[i], maskOs[i + 1])
      invariant forall i :: j <= i < MASK_BYTES ==> mask[i] == 0
    {
      mask[j] := ShiftedByte(maskOs[j], maskOs[j + 1]);
    }
    mask[n - 1] := LastByte(maskOs[n - 1]);
    mask[0] := WithoutLow(mask[0]);
    hw := mask[..];
  }

  /** The content loop. */
  method SelectContent(pattern: Bytes, maskOs: Bytes) returns (content: Bytes)
    requires |pattern| <= MAX_PATTERN && |pattern| <= 8 * |maskOs|
    ensures content == Content(pattern, maskOs, |pattern|)
  {
    hide BitOf;
    var buf := new bv8[MAX_PATTERN](_ => 0);
    var j, len := 12, 0;
    while j < |pattern|
      invariant 12 <= j && (j <= |pattern| || |pattern| < 12)
      invariant len <= j - 12 && (j <= |pattern| ==> buf[..len] == Content(pattern, maskOs, j))
      invariant j > |pattern| ==> len == 0
    {
      if BitOf(maskOs[j / 8], j % 8) {
        buf[len] := pattern[j];
        len := len + 1;
      }
      j := j + 1;
    }
    content := buf[..len];
  }

  datatype PatternType = Broadcast | Multicast | Unicast | Unknown

  /** The kind of destination address. */
  function TypeOf(pattern: Bytes, macAddr: Bytes): PatternType
    requires |pattern| >= 6 == |macAddr|
  {
    if pattern[..6] == [0xff, 0xff, 0xff, 0xff, 0xff, 0xff] then Broadcast
    else if pattern[..2] == [0x33, 0x33] || pattern[..3] == [0x01, 0x00, 0x5e] then Multicast
    else if pattern[..6] == macAddr then Unicast
    else Unknown
  }

  /** Group addresses count as multicast only if they are those of IPv4 and IPv6. */
  lemma {:induction false} KindOfAddress(pattern: Bytes, macAddr: Bytes)
    requires |pattern| >= 6 == |macAddr|
    ensures var kind := TypeOf(pattern, macAddr);
            && (kind == Broadcast <==> forall i :: 0 <= i < 6 ==> pattern[i] == 0xff)
            && (kind == Multicast <==> (pattern[0] == 0x33 && pattern[1] == 0x33)
                                       || (pattern[0] == 0x01 && pattern[1] == 0x00 && pattern[2] == 0x5e))
            && (kind == Unicast ==> pattern[..6] == macAddr)
            && (kind == Unknown ==> pattern[..6] != macAddr)
  {
    var six, three, two := pattern[..6], pattern[..3], pattern[..2];
    assert six[0] == pattern[0] && six[1] == pattern[1] && six[2] == pattern[2] && six[3] == pattern[3]
        && six[4] == pattern[4] && six[5] == pattern[5];
    assert three[0] == pattern[0] && three[1] == pattern[1] && three[2] == pattern[2];
    assert two[0] == pattern[0] && two[1] == pattern[1];
  }

  datatype HwPattern = HwPattern(kind: PatternType, words: seq<bv32>, crc: bv16)

  /** One round of `_rtl_add_wowlan_patterns`; a pattern that is too long is skipped. */
  method AddPattern(pattern: Bytes, maskOs: Bytes, macAddr: Bytes) returns (p: Option<HwPattern>)
    requires |pattern| >= 13 && |macAddr| == 6 && |maskOs| == (|pattern| + 7) / 8
    ensures p.None? <==> |pattern| > MAX_PATTERN
    ensures p.Some? ==>
      && p.value.kind == TypeOf(pattern, macAddr)
      && (forall k: nat :: WordBit(p.value.words, k) <==> 6 <= k && Bit(maskOs, k + 6))
      && p.value.crc == Checksum(HwContent(pattern, HwMask(maskOs), |pattern| - 6))
  {
    hide Bit, HwMask, Content, HwContent, WordBit;
    if |pattern| > MAX_PATTERN {
      return None;
    }
    var mask := TranslateMask(maskOs);
    var words := MaskWords(mask);
    var content := SelectContent(pattern, maskOs);
    ContentSelected(pattern, maskOs, |pattern| - 6);
    var crc := CalculateWolPatternCrc(content);
    forall k: nat
      ensures WordBit(words, k) <==> 6 <= k && Bit(maskOs, k + 6)
    {
      MaskShifted(maskOs, k);
      WordsHoldMask(mask, words, k);
    }
    p := Some(HwPattern(TypeOf(pattern, macAddr), words, crc));
  }

  /** Bit k of the hardware's mask registers, the low byte of a register first. */
  predicate WordBit(words: seq<bv32>, k: nat) {
    k / 32 < |words| && BitOf(LeBytes(words[k / 32])[k % 32 / 8], k % 8)
  }

  function WordAt4(mask: Bytes, j: nat): bv32
    requires 4 * j + 4 <= |mask|
  {
    LeWord(mask[4 * j], mask[4 * j + 1], mask[4 * j + 2], mask[4 * j + 3])
  }

  method MaskWords(mask: Bytes) returns (words: seq<bv32>)
    requires |mask| == MASK_BYTES
    ensures |words| == 4 && forall j :: 0 <= j < 4 ==> words[j] == WordAt4(mask, j)
  {
    hide LeWord;
    var regs := new bv32[4](_ => 0);
    for j := 0 to (MASK_BYTES + 1) / 4
      invariant forall i :: 0 <= i < j ==> regs[i] == WordAt4(mask, i)
    {
      regs[j] := LeWord(mask[4 * j], mask[4 * j + 1], mask[4 * j + 2], mask[4 * j + 3]);
    }
    words := regs[..];
  }

  lemma {:induction false} WordPosition(k: nat)
    ensures k / 8 == 4 * (k / 32) + k % 32 / 8 && k % 32 / 8 < 4
    ensures k / 32 < 4 <==> k / 8 < MASK_BYTES
  {
  }

  lemma {:induction false} WordsHoldMask(mask: Bytes, words: seq<bv32>, k: nat)
    requires |mask| == MASK_BYTES && |words| == 4 && forall j :: 0 <= j < 4 ==> words[j] == WordAt4(mask, j)
    ensures WordBit(words, k) <==> Bit(mask, k)
  {
    hide WordAt4, LeBytes, BitOf;
    var j, b := k / 32, k % 32 / 8;
    WordPosition(k);
    if j < 4 {
      RegisterByte(mask, j, b);
    }
  }

  lemma {:induction false} RegisterByte(mask: Bytes, j: nat, b: nat)
    requires 4 * j + 4 <= |mask| && b < 4
    ensures LeBytes(WordAt4(mask, j))[b] == mask[4 * j + b]
  {
    hide LeWord, LeBytes;
    BytesOfWord(mask[4 * j], mask[4 * j + 1], mask[4 * j + 2], mask[4 * j + 3]);
  }
}
