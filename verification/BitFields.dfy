/** Shifts and masks, and the bit fields that are cut out of bytes and words with them. */
module BitFields {
  import opened Bits
  import opened BitLemmas

  function Shl(x: nat, s: nat): nat {
    if s == 0 then x else 2 * Shl(x, s - 1)
  }

  function Shr(x: nat, s: nat): nat {
    if s == 0 then x else Shr(x / 2, s - 1)
  }

  // ---------------------------------------------------------------- bits of each operation

  lemma {:induction false} AndBit(x: nat, y: nat, i: nat)
    ensures Bit(And(x, y), i) <==> Bit(x, i) && Bit(y, i)
    decreases i
  {
    if x == 0 || y == 0 {
      ZeroBit(i);
    } else {
      DoubleHalf(And(x / 2, y / 2), x % 2 == 1 && y % 2 == 1);
      if i > 0 { AndBit(x / 2, y / 2, i - 1); }
    }
  }

  lemma {:induction false} ShlBit(x: nat, s: nat, i: nat)
    ensures Bit(Shl(x, s), i) <==> i >= s && Bit(x, i - s)
  {
    if s > 0 {
      DoubleHalf(Shl(x, s - 1), false);
      if i > 0 { ShlBit(x, s - 1, i - 1); }
    }
  }

  lemma {:induction false} ShrBit(x: nat, s: nat, i: nat)
    ensures Bit(Shr(x, s), i) <==> Bit(x, i + s)
  {
    if s > 0 { ShrBit(x / 2, s - 1, i); }
  }

  /** The lowest `n` bits of a mask are set. */
  lemma {:induction false} MaskBit(n: nat, i: nat)
    ensures Bit(Pow2(n) - 1, i) <==> i < n
  {
    if n == 0 {
      ZeroBit(i);
    } else {
      assert (Pow2(n) - 1) / 2 == Pow2(n - 1) - 1;
      if i > 0 { MaskBit(n - 1, i - 1); }
    }
  }

  lemma ByteMaskBit(i: nat)
    ensures Bit(0xff, i) <==> i < 8
  {
    MaskBit(8, i);
    assert Pow2(8) == 0x100;
  }

  lemma ShrNibble(x: nat)
    ensures Shr(x, 4) == x / 0x10
  {
    assert Shr(x, 4) == Shr(x / 2, 3);
    assert Shr(x / 2, 3) == Shr(x / 2 / 2, 2);
    assert Shr(x / 2 / 2, 2) == Shr(x / 2 / 2 / 2, 1);
    assert Shr(x / 2 / 2 / 2, 1) == x / 2 / 2 / 2 / 2;
  }

  /** The two bytes of a word. */
  lemma HighByteBit(w: nat, i: nat)
    ensures Bit(w / 0x100, i) <==> Bit(w, i + 8)
  {
    ShrNibble(w);
    ShrBit(w, 4, i + 4);
    ShrNibble(w / 0x10);
    ShrBit(w / 0x10, 4, i);
  }

  /** The lowest `n` bits. */
  function Low(x: nat, n: nat): nat {
    if n == 0 then 0 else x % 2 + 2 * Low(x / 2, n - 1)
  }

  lemma {:induction false} LowBit(x: nat, n: nat, i: nat)
    ensures Bit(Low(x, n), i) <==> i < n && Bit(x, i)
  {
    if n == 0 {
      ZeroBit(i);
    } else {
      DoubleHalf(Low(x / 2, n - 1), x % 2 == 1);
      if i > 0 { LowBit(x / 2, n - 1, i - 1); }
    }
  }

  lemma LowNibble(x: nat)
    ensures Low(x, 4) == x % 0x10
  {
    var a, b, c := x / 2, x / 2 / 2, x / 2 / 2 / 2;
    assert Low(x, 4) == x % 2 + 2 * Low(a, 3);
    assert Low(a, 3) == a % 2 + 2 * Low(b, 2);
    assert Low(b, 2) == b % 2 + 2 * Low(c, 1);
    assert Low(c, 1) == c % 2 + 2 * Low(c / 2, 0) == c % 2;
  }

  lemma {:induction false} LowSplit(x: nat, n: nat, k: nat)
    ensures Low(x, n + k) == Low(x, n) + Shl(Low(Shr(x, n), k), n)
  {
    if n > 0 { LowSplit(x / 2, n - 1, k); }
  }

  lemma ShlNibble(x: nat)
    ensures Shl(x, 4) == 0x10 * x
  {
    assert Shl(x, 1) == 2 * x;
    assert Shl(x, 2) == 4 * x;
    assert Shl(x, 3) == 8 * x;
  }

  lemma LowByte(w: nat)
    ensures Low(w, 8) == w % 0x100
  {
    LowSplit(w, 4, 4);
    LowNibble(w);
    ShrNibble(w);
    LowNibble(w / 0x10);
    ShlNibble(w / 0x10 % 0x10);
    TwoNibbles(w);
  }

  lemma TwoNibbles(w: nat)
    ensures w % 0x100 == w % 0x10 + 0x10 * (w / 0x10 % 0x10)
  {
    var q, r := w / 0x100, w % 0x100;
    var a, b := 0x10 * q + r / 0x10, r % 0x10;
    assert w == 0x10 * a + b;
    assert w / 0x10 == a && w % 0x10 == b;
  }

  lemma LowByteBit(w: nat, i: nat)
    ensures Bit(w % 0x100, i) <==> i < 8 && Bit(w, i)
  {
    LowByte(w);
    LowBit(w, 8, i);
  }

  // ---------------------------------------------------------------- numbers from their bits

  lemma {:induction false} SameBits(x: nat, y: nat)
    requires forall i: nat :: Bit(x, i) <==> Bit(y, i)
    ensures x == y
    decreases x + y
  {
    assert Bit(x, 0) <==> Bit(y, 0);
    if x > 0 || y > 0 {
      forall i: nat ensures Bit(x / 2, i) <==> Bit(y / 2, i) {
        assert Bit(x, i + 1) <==> Bit(y, i + 1);
      }
      SameBits(x / 2, y / 2);
    }
  }

  lemma {:induction false} BoundByBits(x: nat, n: nat)
    requires forall i: nat :: Bit(x, i) ==> i < n
    ensures x < Pow2(n)
    decreases n, x
  {
    if n == 0 {
      if x > 0 { SomeBit(x); }
    } else {
      forall i: nat | Bit(x / 2, i) ensures i < n - 1 {
        assert Bit(x, i + 1);
      }
      BoundByBits(x / 2, n - 1);
    }
  }

  lemma BitLimit(x: nat, n: nat)
    requires x < Pow2(n)
    ensures forall i: nat :: Bit(x, i) ==> i < n
  {
    forall i: nat | Bit(x, i) ensures i < n { BitBound(x, n, i); }
  }

  // ---------------------------------------------------------------- fields

  /** `n` bits of a byte from bit `begin` on, counted from the most significant. */
  function Field(b: byte, begin: nat, n: nat): (r: byte)
    requires begin + n <= 8
  {
    LowBelow(Shr(b, 8 - begin - n), n);
    ShrBelow(b, 8 - begin - n);
    Low(Shr(b, 8 - begin - n), n)
  }

  lemma {:induction false} LowBelow(x: nat, n: nat)
    ensures Low(x, n) <= x && Low(x, n) < Pow2(n)
  {
    if n > 0 { LowBelow(x / 2, n - 1); }
  }

  lemma {:induction false} ShrBelow(x: nat, s: nat)
    ensures Shr(x, s) <= x
  {
    if s > 0 { ShrBelow(x / 2, s - 1); }
  }

  lemma FieldBit(b: byte, begin: nat, n: nat, i: nat)
    requires begin + n <= 8
    ensures Bit(Field(b, begin, n), i) <==> i < n && Bit(b, i + 8 - begin - n)
  {
    LowBit(Shr(b, 8 - begin - n), n, i);
    ShrBit(b, 8 - begin - n, i);
  }

  /** The field, or nothing at all when it does not fit into the byte; the shift is one of uint16. */
  method GetNBitsFromByte(b: byte, begin: uint16, n: uint16) returns (r: byte)
    ensures r == if begin + n <= 8 then Field(b, begin, n) else 0
  {
    var endShift := EndShift(begin, n);
    var mask := And(Shr(0xff, begin), Shl(0xff, endShift) % 0x100);
    Masked(b, begin, n, endShift, mask);
    r := Shr(And(b, mask), endShift);
  }

  function EndShift(begin: uint16, n: uint16): (e: uint16)
    ensures begin + n <= 8 ==> e == 8 - begin - n
    ensures begin + n > 8 ==> e + begin >= 8
  {
    (8 - (begin + n)) % 0x1_0000
  }

  lemma Masked(b: byte, begin: nat, n: nat, e: nat, mask: nat)
    requires mask == And(Shr(0xff, begin), Shl(0xff, e) % 0x100)
    requires if begin + n <= 8 then e == 8 - begin - n else e + begin >= 8
    ensures Shr(And(b, mask), e) == if begin + n <= 8 then Field(b, begin, n) else 0
  {
    if begin + n <= 8 { MaskedIsField(b, begin, n, mask); } else { MaskedIsNothing(b, begin, e, mask); }
  }

  lemma MaskedIsNothing(b: byte, begin: nat, e: nat, mask: nat)
    requires e + begin >= 8 && mask == And(Shr(0xff, begin), Shl(0xff, e) % 0x100)
    ensures Shr(And(b, mask), e) == 0
  {
    forall i: nat ensures Bit(Shr(And(b, mask), e), i) <==> Bit(0, i) {
      ShrBit(And(b, mask), e, i);
      AndBit(b, mask, i + e);
      MaskBits(begin, e, i + e);
      ZeroBit(i);
    }
    SameBits(Shr(And(b, mask), e), 0);
  }

  lemma MaskBits(begin: nat, e: nat, i: nat)
    ensures Bit(And(Shr(0xff, begin), Shl(0xff, e) % 0x100), i) <==> e <= i < 8 - begin
  {
    var ones := 0xff;
    AndBit(Shr(ones, begin), Shl(ones, e) % 0x100, i);
    LowByteBit(Shl(ones, e), i);
    ShrBit(ones, begin, i);
    ShlBit(ones, e, i);
    ByteMaskBit(i + begin);
    if i >= e { ByteMaskBit(i - e); }
  }

  lemma MaskedIsField(b: byte, begin: nat, n: nat, mask: nat)
    requires begin + n <= 8 && mask == And(Shr(0xff, begin), Shl(0xff, 8 - begin - n) % 0x100)
    ensures Shr(And(b, mask), 8 - begin - n) == Field(b, begin, n)
  {
    var e := 8 - begin - n;
    forall i: nat ensures Bit(Shr(And(b, mask), e), i) <==> Bit(Field(b, begin, n), i) {
      ShrBit(And(b, mask), e, i);
      AndBit(b, mask, i + e);
      MaskBits(begin, e, i + e);
      FieldBit(b, begin, n, i);
    }
    SameBits(Shr(And(b, mask), e), Field(b, begin, n));
  }

  /** The word with `size` bits of `val` set at `startIndex`; no room is an error. */
  function SetField(src: uint16, size: nat, startIndex: nat, val: uint16): Option<uint16> {
    if startIndex + size > 16 then None
    else
      SetFits(src, size, startIndex, val);
      Some(Or(src, Shl(Low(val, size), 16 - size - startIndex)))
  }

  /** In uint16 arithmetic: where the sum of index and size wraps around, so does the place of the field, and bits that
      go past the word are lost. */
  method SetNBitsOfUint16(src: uint16, size: uint16, startIndex: uint16, val: uint16) returns (r: Option<uint16>)
    ensures startIndex + size < 0x1_0000 ==> r == SetField(src, size, startIndex, val)
    ensures r.None? <==> (startIndex + size) % 0x1_0000 > 16
    ensures r.Some? ==>
              var e := 16 - (startIndex + size) % 0x1_0000;
              forall i: nat :: Bit(r.value, i) <==> Bit(src, i) || (e <= i < e + size && i < 16 && Bit(val, i - e))
  {
    var sum := (startIndex + size) % 0x1_0000;
    if sum > 16 {
      return None;
    }
    TruncatedIsLow(val, size);
    var truncated := And(val, if size >= 16 then 0xffff else Shl(1, size) - 1);
    var shift := (16 - size - startIndex) % 0x1_0000;
    assert shift == 16 - sum;
    var word := Or(src, Low(Shl(truncated, shift), 16));
    WordBits(src, size, shift, val, word);
    if startIndex + size <= 16 {
      SetFits(src, size, startIndex, val);
      forall i: nat ensures Bit(word, i) <==> Bit(SetField(src, size, startIndex, val).value, i) {
        SetBit(src, size, startIndex, val, i);
      }
      SameBits(word, SetField(src, size, startIndex, val).value);
    }
    r := Some(word);
  }

  lemma WordBits(src: uint16, size: nat, e: nat, val: uint16, word: nat)
    requires word == Or(src, Low(Shl(Low(val, size), e), 16))
    ensures word < 0x1_0000
    ensures forall i: nat :: Bit(word, i) <==> Bit(src, i) || (e <= i < e + size && i < 16 && Bit(val, i - e))
  {
    Pow2Sixteen();
    BitLimit(src, 16);
    forall i: nat ensures Bit(word, i) <==> Bit(src, i) || (e <= i < e + size && i < 16 && Bit(val, i - e)) {
      OrBit(src, Low(Shl(Low(val, size), e), 16), i);
      LowBit(Shl(Low(val, size), e), 16, i);
      ShlBit(Low(val, size), e, i);
      if i >= e { LowBit(val, size, i - e); }
    }
    BoundByBits(word, 16);
  }

  lemma {:induction false} ShlOne(n: nat)
    ensures Shl(1, n) == Pow2(n)
  {
    if n > 0 { ShlOne(n - 1); }
  }

  /** `1 << size` is 0 in a uint16 from 16 on, and then nothing is cut off. */
  lemma TruncatedIsLow(val: uint16, size: nat)
    ensures Shl(1, size) > 0
    ensures And(val, if size >= 16 then 0xffff else Shl(1, size) - 1) == Low(val, size)
  {
    ShlOne(size);
    Pow2Sixteen();
    BitLimit(val, 16);
    var n := if size >= 16 then 16 else size;
    var masked := And(val, Pow2(n) - 1);
    forall i: nat ensures Bit(masked, i) <==> Bit(Low(val, size), i) {
      AndBit(val, Pow2(n) - 1, i);
      MaskBit(n, i);
      LowBit(val, size, i);
    }
    SameBits(masked, Low(val, size));
  }

  lemma SetBitRaw(src: nat, size: nat, e: nat, val: nat, i: nat)
    ensures Bit(Or(src, Shl(Low(val, size), e)), i) <==> Bit(src, i) || (e <= i < e + size && Bit(val, i - e))
  {
    OrBit(src, Shl(Low(val, size), e), i);
    ShlBit(Low(val, size), e, i);
    if i >= e { LowBit(val, size, i - e); }
  }

  lemma SetFits(src: uint16, size: nat, startIndex: nat, val: uint16)
    requires startIndex + size <= 16
    ensures Or(src, Shl(Low(val, size), 16 - size - startIndex)) < 0x1_0000
  {
    Pow2Sixteen();
    BitLimit(src, 16);
    var e := 16 - size - startIndex;
    var r := Or(src, Shl(Low(val, size), e));
    forall i: nat | Bit(r, i) ensures i < 16 { SetBitRaw(src, size, e, val, i); }
    BoundByBits(r, 16);
  }

  lemma SetBit(src: uint16, size: nat, startIndex: nat, val: uint16, i: nat)
    requires startIndex + size <= 16
    ensures var e := 16 - size - startIndex;
            Bit(SetField(src, size, startIndex, val).value, i) <==>
            Bit(src, i) || (e <= i < e + size && Bit(val, i - e))
  {
    SetBitRaw(src, size, 16 - size - startIndex, val, i);
  }

  lemma Pow2ThirtyTwo()
    ensures Pow2(32) == 0x1_0000_0000 && Pow2(24) == 0x100_0000
  {
    Pow2Sixteen();
    assert Pow2(20) == 0x10_0000;
    assert Pow2(24) == 0x100_0000;
    assert Pow2(28) == 0x1000_0000;
  }

  /** Shifts `src` up, within 32 bits, and appends `n` bits of `val`; beyond 32 nothing is left of either. */
  method AppendNBitsToUint32(src: uint32, n: uint32, val: uint32) returns (r: uint32)
    ensures n <= 32 ==> forall i: nat :: Bit(r, i) <==> if i < n then Bit(val, i) else i < 32 && Bit(src, i - n)
    ensures n > 32 ==> r == 0
  {
    var shift := (32 - n) % 0x1_0000_0000;
    var high, low := Low(Shl(src, n), 32), And(val, Shr(0xFFFF_FFFF, shift));
    Pow2ThirtyTwo();
    BitLimit(val, 32);
    forall i: nat ensures Bit(Or(high, low), i) <==> (i < 32 && i >= n && Bit(src, i - n)) || (i + shift < 32 && Bit(val, i)) {
      AppendBit(src, n, shift, val, i);
    }
    BoundByBits(Or(high, low), 32);
    r := Or(high, low);
    if n > 32 {
      forall i: nat ensures Bit(r, i) <==> Bit(0, i) { ZeroBit(i); }
      SameBits(r, 0);
    }
  }

  lemma AppendBit(src: nat, n: nat, shift: nat, val: nat, i: nat)
    ensures Bit(Or(Low(Shl(src, n), 32), And(val, Shr(0xFFFF_FFFF, shift))), i) <==>
            (i < 32 && i >= n && Bit(src, i - n)) || (i + shift < 32 && Bit(val, i))
  {
    OrBit(Low(Shl(src, n), 32), And(val, Shr(0xFFFF_FFFF, shift)), i);
    LowBit(Shl(src, n), 32, i);
    ShlBit(src, n, i);
    AndBit(val, Shr(0xFFFF_FFFF, shift), i);
    ShrBit(0xFFFF_FFFF, shift, i);
    Pow2ThirtyTwo();
    MaskBit(32, i + shift);
  }

  /** The lowest byte and the `n` bits above it. */
  lemma LowAndByte(x: nat, n: nat)
    ensures Low(x, 8 + n) == x % 0x100 + 0x100 * Low(x / 0x100, n)
  {
    LowSplit(x, 8, n);
    LowByte(x);
    ShrByte(x);
    ShlByte(Low(x / 0x100, n));
  }

  lemma LowThreeBytes(x: nat)
    ensures Low(x, 24) == x % 0x100_0000
  {
    var y := x / 0x100;
    LowAndByte(x, 16);
    LowAndByte(y, 8);
    LowByte(y / 0x100);
    ThreeBytes(x);
    TwoBytes(y);
  }

  lemma TwoBytes(y: nat)
    ensures y % 0x1_0000 == y % 0x100 + 0x100 * (y / 0x100 % 0x100)
  {
    var q, r := y / 0x1_0000, y % 0x1_0000;
    var a, b := 0x100 * q + r / 0x100, r % 0x100;
    assert y == 0x100 * a + b;
    assert y / 0x100 == a && y % 0x100 == b;
  }

  lemma ThreeBytes(x: nat)
    ensures x % 0x100_0000 == x % 0x100 + 0x100 * (x / 0x100 % 0x1_0000)
  {
    var q, r := x / 0x100_0000, x % 0x100_0000;
    var a, b := 0x1_0000 * q + r / 0x100, r % 0x100;
    assert x == 0x100 * a + b;
    assert x / 0x100 == a && x % 0x100 == b;
    assert a % 0x1_0000 == r / 0x100;
  }

  lemma ShrByte(x: nat)
    ensures Shr(x, 8) == x / 0x100
  {
    forall i: nat ensures Bit(Shr(x, 8), i) <==> Bit(x / 0x100, i) {
      ShrBit(x, 8, i);
      HighByteBit(x, i);
    }
    SameBits(Shr(x, 8), x / 0x100);
  }

  lemma ShlByte(x: nat)
    ensures Shl(x, 8) == 0x100 * x
  {
    ShlNibble(x);
    assert Shl(x, 5) == 0x20 * x;
    assert Shl(x, 6) == 0x40 * x;
    assert Shl(x, 7) == 0x80 * x;
  }
}
