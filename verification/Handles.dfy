/** Sensor handles: a signed 32-bit number whose top byte names the sub-HAL that owns the sensor. */
module Handles {
  const SUB_HAL_UNIT: nat := 0x100_0000 // 2 to the 24: one unit of the top byte
  const BYTE: nat := 0x100
  const SIZE_T: nat := 0x1_0000_0000_0000_0000

  type Handle = h: int | -0x8000_0000 <= h < 0x8000_0000

  /** Bitwise or, one bit at a time. */
  function Or(a: nat, b: nat): nat {
    if a == 0 && b == 0 then 0
    else (if a % 2 == 1 || b % 2 == 1 then 1 else 0) + 2 * Or(a / 2, b / 2)
  }

  function TopByte(h: Handle): nat {
    (h / SUB_HAL_UNIT) % BYTE
  }

  /** The 32-bit word whose top byte is `top` and whose other bits are `low`, read as a signed number. */
  function Word(top: nat, low: nat): (h: Handle)
    requires top < BYTE && low < SUB_HAL_UNIT
    ensures TopByte(h) == top && ClearSubHalIndex(h) == low
  {
    (if top < 128 then top else top - BYTE) * SUB_HAL_UNIT + low
  }

  /** `handle | (index << 24)`; the shift keeps only the low byte of the index. */
  function SetSubHalIndex(h: Handle, index: nat): Handle {
    OrFits(TopByte(h), index % BYTE, 8);
    Word(Or(TopByte(h), index % BYTE), ClearSubHalIndex(h))
  }

  /** An arithmetic shift followed by a cast to an unsigned 64-bit number. */
  function ExtractSubHalIndex(h: Handle): nat {
    (h / SUB_HAL_UNIT) % SIZE_T
  }

  function ClearSubHalIndex(h: Handle): (low: Handle)
    ensures 0 <= low < SUB_HAL_UNIT
  {
    h % SUB_HAL_UNIT
  }

  predicate SubHalIndexIsClear(h: Handle) {
    0 <= h < SUB_HAL_UNIT
  }

  function Pow2(n: nat): nat {
    if n == 0 then 1 else 2 * Pow2(n - 1)
  }

  lemma {:induction false} OrFits(a: nat, b: nat, bits: nat)
    requires a < Pow2(bits) && b < Pow2(bits)
    ensures Or(a, b) < Pow2(bits)
  {
    if bits > 0 {
      OrFits(a / 2, b / 2, bits - 1);
    }
  }

  lemma {:induction false} OrZero(b: nat)
    ensures Or(0, b) == b
  {
    if b > 0 {
      OrZero(b / 2);
    }
  }

  lemma {:induction false} OrIdempotent(a: nat, b: nat)
    ensures Or(Or(a, b), b) == Or(a, b)
  {
    if a > 0 || b > 0 {
      OrIdempotent(a / 2, b / 2);
      var x := if a % 2 == 1 || b % 2 == 1 then 1 else 0;
      assert Or(a, b) == x + 2 * Or(a / 2, b / 2);
      assert Or(a, b) / 2 == Or(a / 2, b / 2) && Or(a, b) % 2 == x;
      if Or(a, b) == 0 && b == 0 {
        assert Or(Or(a, b), b) == 0;
      }
    }
  }

  lemma ClearTop(h: Handle)
    requires SubHalIndexIsClear(h)
    ensures TopByte(h) == 0 && ClearSubHalIndex(h) == h
  {
  }

  /** A clear handle stamped with an index keeps its low bits and gains the index as its top byte. */
  lemma SetOnClear(h: Handle, index: nat)
    requires SubHalIndexIsClear(h)
    ensures SetSubHalIndex(h, index) == Word(index % BYTE, h)
    ensures TopByte(SetSubHalIndex(h, index)) == index % BYTE
    ensures ClearSubHalIndex(SetSubHalIndex(h, index)) == h
  {
    ClearTop(h);
    OrZero(index % BYTE);
  }

  lemma ExtractWord(top: nat, low: nat)
    requires top < BYTE && low < SUB_HAL_UNIT
    ensures ExtractSubHalIndex(Word(top, low)) == if top < 128 then top else SIZE_T - BYTE + top
  {
    var signed := if top < 128 then top else top - BYTE;
    assert Word(top, low) / SUB_HAL_UNIT == signed;
    if signed < 0 {
      assert (signed + SIZE_T) % SIZE_T == signed % SIZE_T;
    }
  }

  lemma LowByteOfHigh(index: nat)
    requires SIZE_T - BYTE <= index < SIZE_T
    ensures index % BYTE == index - (SIZE_T - BYTE)
  {
    assert SIZE_T - BYTE == BYTE * (0x100_0000_0000_0000 - 1);
  }

  /** Extraction undoes stamping exactly for the first 128 sub-HALs, and, of all other 64-bit numbers,
      for the 128 that sign extension reaches; every vector of sub-HALs is far shorter than those. */
  lemma ExtractUndoesSet(h: Handle, index: nat)
    requires SubHalIndexIsClear(h)
    ensures ExtractSubHalIndex(SetSubHalIndex(h, index)) == index
            <==> index < 128 || SIZE_T - 128 <= index < SIZE_T
    ensures 128 <= index % BYTE ==> ExtractSubHalIndex(SetSubHalIndex(h, index)) >= SIZE_T - 128
  {
    SetOnClear(h, index);
    ExtractWord(index % BYTE, h);
    if SIZE_T - BYTE <= index < SIZE_T {
      LowByteOfHigh(index);
    }
    SignedByteIs(index, index % BYTE);
  }

  lemma SignedByteIs(index: nat, low: nat)
    requires low < BYTE && (index < BYTE ==> low == index)
    requires SIZE_T - BYTE <= index < SIZE_T ==> low == index - (SIZE_T - BYTE)
    ensures (if low < 128 then low else SIZE_T - BYTE + low) == index
            <==> index < 128 || SIZE_T - 128 <= index < SIZE_T
  {
  }

  /** Stamping loses nothing: two clear handles meet after stamping only if they and the low index bytes agree. */
  lemma SetIsInjective(h: Handle, i: nat, h': Handle, j: nat)
    requires SubHalIndexIsClear(h) && SubHalIndexIsClear(h')
    ensures SetSubHalIndex(h, i) == SetSubHalIndex(h', j) <==> h == h' && i % BYTE == j % BYTE
  {
    SetOnClear(h, i);
    SetOnClear(h', j);
  }

  lemma WordOfParts(h: Handle)
    ensures h == Word(TopByte(h), ClearSubHalIndex(h))
  {
    var high := h / SUB_HAL_UNIT;
    assert -128 <= high < 128;
    assert TopByte(h) == if high >= 0 then high else high + BYTE;
  }

  /** Stamping is the inverse of clearing on exactly the handles that carry the index already. */
  lemma SetUndoesClear(h: Handle, index: nat)
    ensures SetSubHalIndex(ClearSubHalIndex(h), index) == h <==> TopByte(h) == index % BYTE
  {
    SetOnClear(ClearSubHalIndex(h), index);
    WordOfParts(h);
  }

  /** Stamping the same index twice changes nothing, whatever the handle held before. */
  lemma SetIsIdempotent(h: Handle, index: nat)
    ensures SetSubHalIndex(SetSubHalIndex(h, index), index) == SetSubHalIndex(h, index)
  {
    OrFits(TopByte(h), index % BYTE, 8);
    OrIdempotent(TopByte(h), index % BYTE);
  }

  // ---- Bit by bit --------------------------------------------------------------------------------------

  /** The 32 bits of a handle, read without a sign. */
  function Unsigned(h: Handle): nat {
    if h < 0 then h + 0x1_0000_0000 else h
  }

  predicate Bit(n: nat, i: nat) {
    if i == 0 then n % 2 == 1 else Bit(n / 2, i - 1)
  }

  predicate HasBit(h: Handle, i: nat) {
    Bit(Unsigned(h), i)
  }

  lemma {:induction false} OrBit(a: nat, b: nat, i: nat)
    ensures Bit(Or(a, b), i) <==> Bit(a, i) || Bit(b, i)
  {
    if a == 0 && b == 0 {
      NoBits(i);
    } else {
      OrHalf(a, b);
      if i > 0 {
        OrBit(a / 2, b / 2, i - 1);
      }
    }
  }

  lemma OrHalf(a: nat, b: nat)
    ensures Or(a, b) / 2 == Or(a / 2, b / 2)
    ensures Or(a, b) % 2 == 1 <==> a % 2 == 1 || b % 2 == 1
  {
    var low := if a % 2 == 1 || b % 2 == 1 then 1 else 0;
    assert a == 0 && b == 0 ==> Or(a / 2, b / 2) == 0;
    assert Or(a, b) == low + 2 * Or(a / 2, b / 2);
  }

  lemma {:induction false} NoBits(i: nat)
    ensures !Bit(0, i)
  {
    if i > 0 {
      NoBits(i - 1);
    }
  }

  lemma {:induction false} BitOfParts(high: nat, low: nat, k: nat, i: nat)
    requires low < Pow2(k)
    ensures Bit(high * Pow2(k) + low, i) <==> if i < k then Bit(low, i) else Bit(high, i - k)
    decreases k
  {
    if k > 0 {
      var n := high * Pow2(k) + low;
      assert high * Pow2(k) == 2 * (high * Pow2(k - 1));
      assert n / 2 == high * Pow2(k - 1) + low / 2 && n % 2 == low % 2;
      if i > 0 {
        BitOfParts(high, low / 2, k - 1, i - 1);
      }
    }
  }

  lemma {:induction false} SomeBit(n: nat, k: nat)
    requires 0 < n < Pow2(k)
    ensures exists i :: 0 <= i < k && Bit(n, i)
  {
    if n % 2 == 1 {
      assert Bit(n, 0);
    } else {
      SomeBit(n / 2, k - 1);
      var i :| 0 <= i < k - 1 && Bit(n / 2, i);
      assert Bit(n, i + 1);
    }
  }

  lemma UnitIsPow2()
    ensures Pow2(24) == SUB_HAL_UNIT
  {
    assert Pow2(8) == 0x100;
    assert Pow2(16) == 0x100 * Pow2(8) by { assert Pow2(12) == 0x10 * Pow2(8); }
    assert Pow2(24) == 0x100 * Pow2(16) by { assert Pow2(20) == 0x10 * Pow2(16); }
  }

  lemma HandleBit(h: Handle, i: nat)
    ensures HasBit(h, i) <==> if i < 24 then Bit(ClearSubHalIndex(h), i) else Bit(TopByte(h), i - 24)
  {
    UnitIsPow2();
    WordOfParts(h);
    assert Unsigned(h) == TopByte(h) * Pow2(24) + ClearSubHalIndex(h);
    BitOfParts(TopByte(h), ClearSubHalIndex(h), 24, i);
  }

  /** Stamping is a bitwise or with the index, shifted to the top byte. */
  lemma SetIsBitwiseOr(h: Handle, index: nat, i: nat)
    requires i < 32
    ensures HasBit(SetSubHalIndex(h, index), i)
            <==> HasBit(h, i) || (i >= 24 && Bit(index, i - 24))
  {
    HandleBit(h, i);
    HandleBit(SetSubHalIndex(h, index), i);
    if i >= 24 {
      OrFits(TopByte(h), index % BYTE, 8);
      OrBit(TopByte(h), index % BYTE, i - 24);
      assert Pow2(8) == BYTE && index == index / BYTE * BYTE + index % BYTE;
      BitOfParts(index / BYTE, index % BYTE, 8, i - 24);
    }
  }

  /** Clearing masks the top byte out. */
  lemma ClearIsMask(h: Handle, i: nat)
    ensures HasBit(ClearSubHalIndex(h), i) <==> i < 24 && HasBit(h, i)
  {
    HandleBit(h, i);
    HandleBit(ClearSubHalIndex(h), i);
    if i >= 24 {
      NoBits(i - 24);
    }
  }

  /** A handle is clear exactly when none of its top eight bits is set. */
  lemma ClearIffNoTopBits(h: Handle)
    ensures SubHalIndexIsClear(h) <==> forall k | 24 <= k < 32 :: !HasBit(h, k)
  {
    if SubHalIndexIsClear(h) {
      forall k | 24 <= k < 32 ensures !HasBit(h, k) {
        HandleBit(h, k);
        NoBits(k - 24);
      }
    } else {
      var k := TopBit(h);
      assert HasBit(h, k);
    }
  }

  lemma TopBit(h: Handle) returns (k: nat)
    requires !SubHalIndexIsClear(h)
    ensures 24 <= k < 32 && HasBit(h, k)
  {
    TopByteOfOthers(h);
    SomeBit(TopByte(h), 8);
    k :| 0 <= k < 8 && Bit(TopByte(h), k);
    HandleBit(h, k + 24);
    k := k + 24;
  }

  lemma TopByteOfOthers(h: Handle)
    requires !SubHalIndexIsClear(h)
    ensures 0 < TopByte(h) < Pow2(8)
  {
    WordOfParts(h);
    assert Pow2(8) == BYTE;
  }

  /** Extraction shifts the sign in: the top byte, as a signed number in 64 bits. */
  lemma ExtractIsSignedShift(h: Handle)
    ensures ExtractSubHalIndex(h)
            == Unsigned(h) / 0x100_0000 + if h < 0 then 0xFFFF_FFFF_FFFF_FF00 else 0
  {
    WordOfParts(h);
    ExtractWord(TopByte(h), ClearSubHalIndex(h));
  }
}
