/** Bits of natural numbers: Python's shifts and bitwise operators, each described by the bits of its result. */
module Bits {

  function BitAt(x: nat, i: nat): bool {
    if i == 0 then x % 2 == 1 else BitAt(x / 2, i - 1)
  }

  /** Shift right. */
  function Shr(x: nat, s: nat): nat {
    if s == 0 then x else Shr(x / 2, s - 1)
  }

  /** Shift left. */
  function Shl(x: nat, s: nat): nat {
    if s == 0 then x else 2 * Shl(x, s - 1)
  }

  /** Bitwise and. */
  function And(x: nat, y: nat): nat {
    if x == 0 || y == 0 then 0 else (if x % 2 == 1 && y % 2 == 1 then 1 else 0) + 2 * And(x / 2, y / 2)
  }

  /** Bitwise or. */
  function Or(x: nat, y: nat): nat {
    if x == 0 then y else if y == 0 then x
    else (if x % 2 == 1 || y % 2 == 1 then 1 else 0) + 2 * Or(x / 2, y / 2)
  }

  /** Bitwise and with the complement of y. */
  function AndNot(x: nat, y: nat): nat {
    if x == 0 then 0 else (if x % 2 == 1 && y % 2 == 0 then 1 else 0) + 2 * AndNot(x / 2, y / 2)
  }

  /** The number whose lowest n bits are set. */
  function Mask(n: nat): nat {
    PowerPositive(n);
    Shl(1, n) - 1
  }

  lemma {:induction false} PowerPositive(n: nat)
    ensures Shl(1, n) > 0
  {
    if n > 0 {
      PowerPositive(n - 1);
    }
  }

  lemma {:induction false} NoBits(i: nat)
    ensures !BitAt(0, i)
  {
    if i > 0 {
      NoBits(i - 1);
    }
  }

  lemma {:induction false} ShrBits(x: nat, s: nat, i: nat)
    ensures BitAt(Shr(x, s), i) == BitAt(x, i + s)
  {
    if s > 0 {
      ShrBits(x / 2, s - 1, i);
    }
  }

  lemma {:induction false} ShlBits(x: nat, s: nat, i: nat)
    ensures BitAt(Shl(x, s), i) == (i >= s && BitAt(x, i - s))
  {
    if s > 0 {
      if i > 0 {
        ShlBits(x, s - 1, i - 1);
      }
    }
  }

  lemma {:induction false} AndBits(x: nat, y: nat, i: nat)
    ensures BitAt(And(x, y), i) == (BitAt(x, i) && BitAt(y, i))
  {
    if x == 0 || y == 0 {
      NoBits(i);
    } else if i > 0 {
      AndBits(x / 2, y / 2, i - 1);
    }
  }

  lemma {:induction false} OrBits(x: nat, y: nat, i: nat)
    ensures BitAt(Or(x, y), i) == (BitAt(x, i) || BitAt(y, i))
  {
    if x == 0 || y == 0 {
      NoBits(i);
    } else if i > 0 {
      OrBits(x / 2, y / 2, i - 1);
    }
  }

  lemma {:induction false} AndNotBits(x: nat, y: nat, i: nat)
    ensures BitAt(AndNot(x, y), i) == (BitAt(x, i) && !BitAt(y, i))
  {
    if x == 0 {
      NoBits(i);
    } else if i > 0 {
      AndNotBits(x / 2, y / 2, i - 1);
    }
  }

  lemma {:induction false} MaskBits(n: nat, i: nat)
    ensures BitAt(Mask(n), i) == (i < n)
  {
    if n == 0 {
      NoBits(i);
    } else {
      PowerPositive(n - 1);
      assert Mask(n) == 2 * Mask(n - 1) + 1;
      if i > 0 {
        MaskBits(n - 1, i - 1);
      }
    }
  }

  /** A number is determined by its bits. */
  lemma {:induction false} SameBits(x: nat, y: nat)
    requires forall i: nat :: BitAt(x, i) == BitAt(y, i)
    ensures x == y
    decreases x + y
  {
    assert BitAt(x, 0) == BitAt(y, 0);
    if x > 0 || y > 0 {
      forall i: nat
        ensures BitAt(x / 2, i) == BitAt(y / 2, i)
      {
        assert BitAt(x, i + 1) == BitAt(y, i + 1);
      }
      SameBits(x / 2, y / 2);
    }
  }

  /** Numbers below 2^n have no bit from n on. */
  lemma {:induction false} SmallHasNoBit(x: nat, n: nat, i: nat)
    requires x < Shl(1, n) && i >= n
    ensures !BitAt(x, i)
  {
    if n == 0 {
      NoBits(i);
    } else {
      SmallHasNoBit(x / 2, n - 1, i - 1);
    }
  }

  /** ... and a number without such bits is below 2^n. */
  lemma {:induction false} NoHighBitIsSmall(x: nat, n: nat)
    requires forall i: nat :: i >= n ==> !BitAt(x, i)
    ensures x < Shl(1, n)
  {
    if n == 0 {
      forall i: nat
        ensures BitAt(x, i) == BitAt(0, i)
      {
        NoBits(i);
      }
      SameBits(x, 0);
    } else {
      forall i: nat | i >= n - 1
        ensures !BitAt(x / 2, i)
      {
        assert !BitAt(x, i + 1);
      }
      NoHighBitIsSmall(x / 2, n - 1);
    }
  }

  /** Low part a, high part y: bits below n come from a, the others from y. */
  lemma {:induction false} JoinBits(a: nat, y: nat, n: nat, i: nat)
    requires a < Shl(1, n)
    ensures BitAt(a + Shl(y, n), i) == if i < n then BitAt(a, i) else BitAt(y, i - n)
  {
    if n > 0 {
      assert (a + Shl(y, n)) / 2 == a / 2 + Shl(y, n - 1);
      if i > 0 {
        JoinBits(a / 2, y, n - 1, i - 1);
      }
    }
  }
}

/**
 * Bit-field views on a shared byte buffer (BaseFieldBit): fields of any width, read and written in
 * place.
 */
module BitFields {
  import opened Common
  import opened Bytes
  import opened Bits

  // ---------- little-endian numbers ----------

  /** The number the bytes form, least significant first. */
  function FromLittle(s: seq<byte>): nat {
    if s == [] then 0 else s[0] + 256 * FromLittle(s[1..])
  }

  /** The n bytes of a number that fits, least significant first. */
  function ToLittle(v: nat, n: nat): (s: seq<byte>)
    ensures |s| == n
  {
    if n == 0 then [] else [v % 256] + ToLittle(v / 256, n - 1)
  }

  /** Bit i of a byte buffer, counted from bit 0 of byte 0. */
  predicate PayloadBit(p: seq<byte>, i: nat) {
    i / 8 < |p| && BitAt(p[i / 8], i % 8)
  }

  lemma Shl8(y: nat)
    ensures Shl(y, 8) == 256 * y && Shl(1, 8) == 256
  {
    assert Shl(y, 8) == 2 * Shl(y, 7) == 4 * Shl(y, 6) == 8 * Shl(y, 5) == 16 * Shl(y, 4);
    assert Shl(y, 4) == 2 * Shl(y, 3) == 4 * Shl(y, 2) == 8 * Shl(y, 1);
    assert Shl(1, 8) == 2 * Shl(1, 7) == 4 * Shl(1, 6) == 8 * Shl(1, 5) == 16 * Shl(1, 4);
    assert Shl(1, 4) == 2 * Shl(1, 3) == 4 * Shl(1, 2) == 8 * Shl(1, 1);
  }

  lemma {:induction false} FromLittleBits(s: seq<byte>, i: nat)
    ensures BitAt(FromLittle(s), i) == PayloadBit(s, i)
  {
    if s == [] {
      NoBits(i);
    } else {
      Shl8(FromLittle(s[1..]));
      JoinBits(s[0], FromLittle(s[1..]), 8, i);
      if i >= 8 {
        FromLittleBits(s[1..], i - 8);
      }
    }
  }

  lemma {:induction false} ToLittleBits(v: nat, n: nat, k: nat, b: nat)
    requires k < n && b < 8
    ensures BitAt(ToLittle(v, n)[k], b) == BitAt(v, 8 * k + b)
  {
    if k == 0 {
      Shl8(v / 256);
      JoinBits(v % 256, v / 256, 8, b);
    } else {
      ToLittleBits(v / 256, n - 1, k - 1, b);
      Shl8(v / 256);
      JoinBits(v % 256, v / 256, 8, 8 * k + b);
    }
  }

  // ---------- fields ----------

  /** Field shape: bits startBit..endBit counted from byte startOffset. */
  predicate WellShaped(startBit: nat, endBit: nat) { startBit <= endBit }

  function Width(startBit: nat, endBit: nat): nat
    requires WellShaped(startBit, endBit)
  {
    endBit - startBit + 1
  }

  function ByteLength(startBit: nat, endBit: nat): nat
    requires WellShaped(startBit, endBit)
  {
    endBit / 8 - startBit / 8 + 1
  }

  /** The bytes a field covers, as far as the payload has them. */
  function View(p: seq<byte>, offset: nat, startBit: nat, endBit: nat): seq<byte>
    requires WellShaped(startBit, endBit)
  {
    Slice(p, startBit / 8 + offset, startBit / 8 + offset + ByteLength(startBit, endBit))
  }

  predicate Inside(p: seq<byte>, offset: nat, endBit: nat) {
    offset + endBit / 8 < |p|
  }

  /** The little-endian getter. */
  function GetLittle(p: seq<byte>, offset: nat, startBit: nat, endBit: nat): nat
    requires WellShaped(startBit, endBit)
  {
    And(Shr(FromLittle(View(p, offset, startBit, endBit)), startBit % 8), Mask(Width(startBit, endBit)))
  }

  /** The number the setter writes, when the field is at bit s of the covered number. */
  function WrittenNumber(number: nat, s: nat, width: nat, val: nat): nat {
    Or(AndNot(number, Shl(Mask(width), s)), Shl(val, s))
  }

  /**
   * The little-endian setter. A value too wide raises ValueError, a negative one OverflowError from
   * to_bytes; a field that leaves the payload would resize a buffer with an exported view: BufferError.
   */
  function SetLittle(p: seq<byte>, offset: nat, startBit: nat, endBit: nat, val: int): Result<seq<byte>>
    requires WellShaped(startBit, endBit)
  {
    var mask := Mask(Width(startBit, endBit));
    if val > mask then Err(ValueError)
    else if val < 0 then Err(OverflowError)
    else
      var view := View(p, offset, startBit, endBit);
      if |view| != ByteLength(startBit, endBit) then Err(BufferError)
      else
        var value := WrittenNumber(FromLittle(view), startBit % 8, Width(startBit, endBit), val);
        Ok(Overwrite(p, startBit / 8 + offset, ToLittle(value, ByteLength(startBit, endBit))))
  }

  lemma ViewBits(p: seq<byte>, offset: nat, startBit: nat, endBit: nat, i: nat)
    requires WellShaped(startBit, endBit) && i < 8 * ByteLength(startBit, endBit)
    ensures PayloadBit(View(p, offset, startBit, endBit), i) == PayloadBit(p, 8 * offset + startBit - startBit % 8 + i)
  {
    var lo := startBit / 8 + offset;
    var b := 8 * offset + startBit - startBit % 8 + i;
    assert b == 8 * lo + i;
    assert b / 8 == lo + i / 8 && b % 8 == i % 8;
  }

  /** Bit i of the value read is payload bit startBit + i counted from the offset. */
  lemma GetLittleBits(p: seq<byte>, offset: nat, startBit: nat, endBit: nat, i: nat)
    requires WellShaped(startBit, endBit)
    ensures BitAt(GetLittle(p, offset, startBit, endBit), i)
         == (i < Width(startBit, endBit) && PayloadBit(p, 8 * offset + startBit + i))
  {
    hide FromLittle, And, Shr, Mask, BitAt, View, PayloadBit;
    var n := FromLittle(View(p, offset, startBit, endBit));
    AndBits(Shr(n, startBit % 8), Mask(Width(startBit, endBit)), i);
    MaskBits(Width(startBit, endBit), i);
    ShrBits(n, startBit % 8, i);
    FromLittleBits(View(p, offset, startBit, endBit), i + startBit % 8);
    if i < Width(startBit, endBit) {
      assert i + startBit % 8 < 8 * ByteLength(startBit, endBit);
      ViewBits(p, offset, startBit, endBit, i + startBit % 8);
    }
  }

  /**
   * Refinement: reading just the covered bytes gives bits startBit..endBit of the number the whole
   * payload forms from the offset on.
   */
  lemma GetterRefinesNumber(p: seq<byte>, offset: nat, startBit: nat, endBit: nat)
    requires WellShaped(startBit, endBit)
    ensures GetLittle(p, offset, startBit, endBit)
         == And(Shr(FromLittle(Slice(p, offset, |p|)), startBit), Mask(Width(startBit, endBit)))
  {
    hide GetLittle, PayloadBit, FromLittle, Slice, And, Shr, Mask;
    var whole := Slice(p, offset, |p|);
    var reference := And(Shr(FromLittle(whole), startBit), Mask(Width(startBit, endBit)));
    forall i: nat
      ensures BitAt(GetLittle(p, offset, startBit, endBit), i) == BitAt(reference, i)
    {
      GetLittleBits(p, offset, startBit, endBit, i);
      AndBits(Shr(FromLittle(whole), startBit), Mask(Width(startBit, endBit)), i);
      MaskBits(Width(startBit, endBit), i);
      ShrBits(FromLittle(whole), startBit, i);
      FromLittleBits(whole, i + startBit);
      OffsetBit(p, offset, i + startBit);
    }
    SameBits(GetLittle(p, offset, startBit, endBit), reference);
  }

  lemma OffsetBit(p: seq<byte>, offset: nat, i: nat)
    ensures PayloadBit(Slice(p, offset, |p|), i) == PayloadBit(p, 8 * offset + i)
  {
    assert (8 * offset + i) / 8 == offset + i / 8 && (8 * offset + i) % 8 == i % 8;
  }

  /** The setter returns exactly for values that fit and fields inside the payload. */
  lemma SetLittleSucceeds(p: seq<byte>, offset: nat, startBit: nat, endBit: nat, val: int)
    requires WellShaped(startBit, endBit)
    ensures SetLittle(p, offset, startBit, endBit, val).Ok?
       <==> 0 <= val <= Mask(Width(startBit, endBit)) && Inside(p, offset, endBit)
  {
    hide Mask, WrittenNumber, FromLittle, ToLittle;
    assert startBit / 8 <= endBit / 8;
  }

  predicate InField(offset: nat, startBit: nat, endBit: nat, b: nat) {
    8 * offset + startBit <= b <= 8 * offset + endBit
  }

  /** The bits of the number the setter writes into the covered bytes. */
  lemma WrittenBits(was: nat, s: nat, width: nat, val: nat, i: nat)
    requires val <= Mask(width)
    ensures BitAt(WrittenNumber(was, s, width, val), i)
         == if s <= i < s + width then BitAt(val, i - s) else BitAt(was, i)
  {
    OrBits(AndNot(was, Shl(Mask(width), s)), Shl(val, s), i);
    AndNotBits(was, Shl(Mask(width), s), i);
    ShlBits(Mask(width), s, i);
    ShlBits(val, s, i);
    if i >= s {
      MaskBits(width, i - s);
      if i - s >= width {
        SmallHasNoBit(val, width, i - s);
      }
    }
  }

  /** A write sets the field's bits to the value's and changes no other bit of the payload. */
  lemma SetLittleBits(p: seq<byte>, offset: nat, startBit: nat, endBit: nat, val: int, b: nat)
    requires WellShaped(startBit, endBit) && SetLittle(p, offset, startBit, endBit, val).Ok?
    ensures var p' := SetLittle(p, offset, startBit, endBit, val).value;
      && |p'| == |p|
      && PayloadBit(p', b) ==
         if InField(offset, startBit, endBit, b) then BitAt(val, b - (8 * offset + startBit)) else PayloadBit(p, b)
  {
    SetLittleSucceeds(p, offset, startBit, endBit, val);
    var lo, n, s := startBit / 8 + offset, ByteLength(startBit, endBit), startBit % 8;
    var was := FromLittle(View(p, offset, startBit, endBit));
    var value := WrittenNumber(was, s, Width(startBit, endBit), val);
    if 8 * lo <= b < 8 * (lo + n) {
      var i := b - 8 * lo;
      assert i == 8 * (i / 8) + i % 8 && b / 8 == lo + i / 8 && b % 8 == i % 8;
      ToLittleBits(value, n, i / 8, i % 8);
      WrittenBits(was, s, Width(startBit, endBit), val, i);
      FromLittleBits(View(p, offset, startBit, endBit), i);
      ViewBits(p, offset, startBit, endBit, i);
    } else {
      assert b / 8 < lo || b / 8 >= lo + n;
    }
  }

  /** Set then get returns the value. */
  lemma SetThenGetLittle(p: seq<byte>, offset: nat, startBit: nat, endBit: nat, val: int)
    requires WellShaped(startBit, endBit) && SetLittle(p, offset, startBit, endBit, val).Ok?
    ensures GetLittle(SetLittle(p, offset, startBit, endBit, val).value, offset, startBit, endBit) == val
  {
    hide GetLittle, SetLittle, PayloadBit;
    SetLittleSucceeds(p, offset, startBit, endBit, val);
    var p' := SetLittle(p, offset, startBit, endBit, val).value;
    forall i: nat
      ensures BitAt(GetLittle(p', offset, startBit, endBit), i) == BitAt(val, i)
    {
      GetLittleBits(p', offset, startBit, endBit, i);
      if i < Width(startBit, endBit) {
        SetLittleBits(p, offset, startBit, endBit, val, 8 * offset + startBit + i);
      } else {
        SmallHasNoBit(val, Width(startBit, endBit), i);
      }
    }
    SameBits(GetLittle(p', offset, startBit, endBit), val);
  }

  /** Fields without a common bit keep their values. */
  lemma DisjointFieldKeepsValue(p: seq<byte>, offset: nat, startBit: nat, endBit: nat, val: int,
                                offset': nat, startBit': nat, endBit': nat)
    requires WellShaped(startBit, endBit) && WellShaped(startBit', endBit')
    requires SetLittle(p, offset, startBit, endBit, val).Ok?
    requires 8 * offset + endBit < 8 * offset' + startBit' || 8 * offset' + endBit' < 8 * offset + startBit
    ensures GetLittle(SetLittle(p, offset, startBit, endBit, val).value, offset', startBit', endBit')
         == GetLittle(p, offset', startBit', endBit')
  {
    hide GetLittle, SetLittle, PayloadBit;
    var p' := SetLittle(p, offset, startBit, endBit, val).value;
    forall i: nat
      ensures BitAt(GetLittle(p', offset', startBit', endBit'), i) == BitAt(GetLittle(p, offset', startBit', endBit'), i)
    {
      GetLittleBits(p', offset', startBit', endBit', i);
      GetLittleBits(p, offset', startBit', endBit', i);
      SetLittleBits(p, offset, startBit, endBit, val, 8 * offset' + startBit' + i);
    }
    SameBits(GetLittle(p', offset', startBit', endBit'), GetLittle(p, offset', startBit', endBit'));
  }

  // ---------- big-endian fields ----------

  /** The getter's shift; a field within one byte is shifted by its end bit. */
  function GetShiftBig(startBit: nat, endBit: nat): nat
    requires WellShaped(startBit, endBit)
  {
    var n := ByteLength(startBit, endBit);
    var shift: int := if n == 1 then endBit % 8 else 8 * n - 1 - endBit;
    if shift < 0 then 0 else shift
  }

  /** The setter's shift, which can be negative. */
  function SetShiftBig(startBit: nat, endBit: nat): int
    requires WellShaped(startBit, endBit)
  {
    8 * ByteLength(startBit, endBit) - 1 - endBit
  }

  function GetBig(p: seq<byte>, offset: nat, startBit: nat, endBit: nat): nat
    requires WellShaped(startBit, endBit)
  {
    And(Shr(FromBytes(View(p, offset, startBit, endBit)), GetShiftBig(startBit, endBit)), Mask(Width(startBit, endBit)))
  }

  function SetBig(p: seq<byte>, offset: nat, startBit: nat, endBit: nat, val: int): Result<seq<byte>>
    requires WellShaped(startBit, endBit)
  {
    var mask := Mask(Width(startBit, endBit));
    var shift := SetShiftBig(startBit, endBit);
    if val > mask || shift < 0 then Err(ValueError)
    else if val < 0 then Err(OverflowError)
    else
      var view := View(p, offset, startBit, endBit);
      var value := WrittenNumber(FromBytes(view), shift, Width(startBit, endBit), val);
      if value >= Pow256(ByteLength(startBit, endBit)) then Err(OverflowError)
      else if |view| != ByteLength(startBit, endBit) then Err(BufferError)
      else Ok(Overwrite(p, startBit / 8 + offset, ToBytes(value, ByteLength(startBit, endBit))))
  }

  /** Set then get works on every payload that holds the field, for every value that fits it. */
  ghost predicate RoundTripsBig(startBit: nat, endBit: nat)
    requires WellShaped(startBit, endBit)
  {
    forall p: seq<byte>, offset: nat, val: nat :: Inside(p, offset, endBit) && val <= Mask(Width(startBit, endBit)) ==>
      var r := SetBig(p, offset, startBit, endBit, val);
      r.Ok? && GetBig(r.value, offset, startBit, endBit) == val
  }

  lemma {:induction false} Pow256IsShl(n: nat)
    ensures Pow256(n) == Shl(1, 8 * n)
  {
    if n > 0 {
      Pow256IsShl(n - 1);
      var m := 8 * n;
      assert Shl(1, m) == 2 * Shl(1, m - 1) == 4 * Shl(1, m - 2) == 8 * Shl(1, m - 3) == 16 * Shl(1, m - 4);
      assert Shl(1, m - 4) == 2 * Shl(1, m - 5) == 4 * Shl(1, m - 6) == 8 * Shl(1, m - 7) == 16 * Shl(1, m - 8);
    }
  }

  lemma WrittenNumberFits(number: nat, s: nat, width: nat, val: nat, n: nat)
    requires val <= Mask(width) && s + width <= 8 * n && number < Pow256(n)
    ensures WrittenNumber(number, s, width, val) < Pow256(n)
  {
    Pow256IsShl(n);
    var value := WrittenNumber(number, s, width, val);
    forall i: nat | i >= 8 * n
      ensures !BitAt(value, i)
    {
      WrittenBits(number, s, width, val, i);
      SmallHasNoBit(number, 8 * n, i);
    }
    NoHighBitIsSmall(value, 8 * n);
  }

  lemma WrittenNumberReads(number: nat, s: nat, width: nat, val: nat)
    requires val <= Mask(width)
    ensures And(Shr(WrittenNumber(number, s, width, val), s), Mask(width)) == val
  {
    var value := WrittenNumber(number, s, width, val);
    forall i: nat
      ensures BitAt(And(Shr(value, s), Mask(width)), i) == BitAt(val, i)
    {
      AndBits(Shr(value, s), Mask(width), i);
      MaskBits(width, i);
      ShrBits(value, s, i);
      WrittenBits(number, s, width, val, i + s);
      if i >= width {
        SmallHasNoBit(val, width, i);
      }
    }
    SameBits(And(Shr(value, s), Mask(width)), val);
  }

  lemma BigShape(startBit: nat, endBit: nat)
    requires startBit < 8 <= endBit
    ensures GetShiftBig(startBit, endBit) == SetShiftBig(startBit, endBit) == 7 - endBit % 8
    ensures GetShiftBig(startBit, endBit) + Width(startBit, endBit) <= 8 * ByteLength(startBit, endBit)
  {
  }

  lemma SetThenGetBig(p: seq<byte>, offset: nat, startBit: nat, endBit: nat, val: nat)
    requires startBit < 8 <= endBit && Inside(p, offset, endBit) && val <= Mask(Width(startBit, endBit))
    ensures var r := SetBig(p, offset, startBit, endBit, val);
      r.Ok? && GetBig(r.value, offset, startBit, endBit) == val
  {
    var n, width, s := ByteLength(startBit, endBit), Width(startBit, endBit), GetShiftBig(startBit, endBit);
    BigShape(startBit, endBit);
    var view := View(p, offset, startBit, endBit);
    assert |view| == n;
    var value := WrittenNumber(FromBytes(view), s, width, val);
    FromBytesBound(view);
    WrittenNumberFits(FromBytes(view), s, width, val, n);
    BytesRoundTrip(value, n);
    ReadsBackBig(p, offset, startBit, endBit, value);
    WrittenNumberReads(FromBytes(view), s, width, val);
    hide View, FromBytes, ToBytes, And, WrittenNumber, Shr, Mask, Pow256, Overwrite;
  }

  lemma ReadsBackBig(p: seq<byte>, offset: nat, startBit: nat, endBit: nat, value: nat)
    requires WellShaped(startBit, endBit) && Inside(p, offset, endBit)
    ensures var n := ByteLength(startBit, endBit);
      View(Overwrite(p, startBit / 8 + offset, ToBytes(value, n)), offset, startBit, endBit) == ToBytes(value, n)
  {
  }

  /** The bits of a one-byte field written full into an empty byte are 7 - endBit .. 7 - startBit. */
  lemma FullFieldBits(startBit: nat, endBit: nat, i: nat)
    requires startBit <= endBit < 8
    ensures BitAt(WrittenNumber(0, 7 - endBit, Width(startBit, endBit), Mask(Width(startBit, endBit))), i)
         == (7 - endBit <= i <= 7 - startBit)
  {
    var width := Width(startBit, endBit);
    WrittenBits(0, 7 - endBit, width, Mask(width), i);
    NoBits(i);
    if i >= 7 - endBit {
      MaskBits(width, i - (7 - endBit));
    }
  }

  /** ... and the getter, which looks at bit endBit and up, does not see all of them. */
  lemma FullFieldMisread(startBit: nat, endBit: nat)
    requires startBit <= endBit < 8
    ensures var width := Width(startBit, endBit);
      And(Shr(WrittenNumber(0, 7 - endBit, width, Mask(width)), endBit), Mask(width)) != Mask(width)
  {
    hide WrittenNumber, And, Shr, Mask;
    var width := Width(startBit, endBit);
    var value := WrittenNumber(0, 7 - endBit, width, Mask(width));
    FullFieldBits(startBit, endBit, endBit);
    FullFieldBits(startBit, endBit, endBit + width - 1);
    if And(Shr(value, endBit), Mask(width)) == Mask(width) {
      GotBits(value, endBit, width, 0);
      GotBits(value, endBit, width, width - 1);
    }
  }

  /** Within one byte getter and setter use different shifts: a field written full into an empty byte is misread. */
  lemma OneByteBigFails(startBit: nat, endBit: nat)
    requires startBit <= endBit < 8
    ensures var val := Mask(Width(startBit, endBit));
      var r := SetBig([0], 0, startBit, endBit, val);
      r.Ok? && GetBig(r.value, 0, startBit, endBit) != val
  {
    var p: seq<byte> := [0];
    var width := Width(startBit, endBit);
    var view := View(p, 0, startBit, endBit);
    assert view == [0] && ByteLength(startBit, endBit) == 1 && startBit / 8 == 0;
    assert FromBytes(view) == 0 by { assert [0][..0] == []; }
    var value := WrittenNumber(0, 7 - endBit, width, Mask(width));
    assert Pow256(1) == 256 * Pow256(0);
    WrittenNumberFits(0, 7 - endBit, width, Mask(width), 1);
    BytesRoundTrip(value, 1);
    ReadsBackBig(p, 0, startBit, endBit, value);
    FullFieldMisread(startBit, endBit);
    hide View, FromBytes, ToBytes, And, WrittenNumber, Shr, Mask, Pow256, Overwrite;
  }

  lemma GotBits(value: nat, shift: nat, width: nat, i: nat)
    requires And(Shr(value, shift), Mask(width)) == Mask(width) && i < width
    ensures BitAt(value, i + shift)
  {
    AndBits(Shr(value, shift), Mask(width), i);
    MaskBits(width, i);
    ShrBits(value, shift, i);
  }

  /** Big-endian fields round-trip exactly if they start in the first byte and end in a later one. */
  lemma BigRoundTripExact(startBit: nat, endBit: nat)
    requires WellShaped(startBit, endBit)
    ensures RoundTripsBig(startBit, endBit) <==> startBit < 8 <= endBit
  {
    hide GetBig, SetBig, Mask;
    if startBit < 8 <= endBit {
      forall p: seq<byte>, offset: nat, val: nat | Inside(p, offset, endBit) && val <= Mask(Width(startBit, endBit))
        ensures var r := SetBig(p, offset, startBit, endBit, val); r.Ok? && GetBig(r.value, offset, startBit, endBit) == val
      {
        SetThenGetBig(p, offset, startBit, endBit, val);
      }
    } else if endBit < 8 {
      OneByteBigFails(startBit, endBit);
      assert Inside([0], 0, endBit);
    } else {
      LateStartBigRaises(Fill(0, endBit / 8 + 1), 0, startBit, endBit, 0);
      assert Inside(Fill(0, endBit / 8 + 1), 0, endBit);
    }
  }

  /** A field that starts after the first byte cannot be set: the shift count is negative. */
  lemma LateStartBigRaises(p: seq<byte>, offset: nat, startBit: nat, endBit: nat, val: int)
    requires WellShaped(startBit, endBit) && startBit >= 8
    ensures SetBig(p, offset, startBit, endBit, val) == Err(ValueError)
  {
    hide Mask, View, FromBytes, WrittenNumber, Pow256;
  }

  // ---------- the bits of big-endian fields ----------

  /** Bit i of a byte buffer when the most significant bit of each byte comes first. */
  predicate BigBit(p: seq<byte>, i: nat) {
    i / 8 < |p| && BitAt(p[i / 8], 7 - i % 8)
  }

  lemma {:induction false} FromBytesBits(s: seq<byte>, i: nat)
    ensures BitAt(FromBytes(s), i) == (i < 8 * |s| && BitAt(s[|s| - 1 - i / 8], i % 8))
  {
    if s == [] {
      NoBits(i);
    } else {
      var n := |s| - 1;
      Shl8(FromBytes(s[..n]));
      JoinBits(s[n], FromBytes(s[..n]), 8, i);
      if i >= 8 {
        FromBytesBits(s[..n], i - 8);
      }
    }
  }

  lemma {:induction false} ToBytesBits(v: nat, n: nat, k: nat, b: nat)
    requires k < n && b < 8
    ensures BitAt(ToBytes(v, n)[k], b) == BitAt(v, 8 * (n - 1 - k) + b)
  {
    Shl8(v / 256);
    if k == n - 1 {
      JoinBits(v % 256, v / 256, 8, b);
    } else {
      ToBytesBits(v / 256, n - 1, k, b);
      JoinBits(v % 256, v / 256, 8, 8 * (n - 1 - k) + b);
    }
  }

  /** Counted from the front, bit endBit - t of a field is bit t of the number its bytes form, shifted to the field's end. */
  lemma FrontBit(n: nat, endBit: nat, t: nat)
    requires n == endBit / 8 + 1 && t < 8 * n
    ensures var q := 8 * n - 1 - t; q / 8 == n - 1 - t / 8 && 7 - q % 8 == t % 8
    ensures 8 * n - 1 - (7 - endBit % 8) == endBit
  {
    assert t == 8 * (t / 8) + t % 8;
  }

  /** Bit i of the value read is the i-th bit back from the end of the field, most significant bit first. */
  lemma GetBigBits(p: seq<byte>, offset: nat, startBit: nat, endBit: nat, i: nat)
    requires startBit < 8 <= endBit && Inside(p, offset, endBit)
    ensures BitAt(GetBig(p, offset, startBit, endBit), i) == (i < Width(startBit, endBit) && BigBit(p, 8 * offset + endBit - i))
  {
    hide And, Shr, Mask, FromBytes, BitAt;
    var n, shift := ByteLength(startBit, endBit), 7 - endBit % 8;
    var view := View(p, offset, startBit, endBit);
    BigShape(startBit, endBit);
    AndBits(Shr(FromBytes(view), shift), Mask(Width(startBit, endBit)), i);
    MaskBits(Width(startBit, endBit), i);
    ShrBits(FromBytes(view), shift, i);
    FromBytesBits(view, i + shift);
    if i < Width(startBit, endBit) {
      FrontBit(n, endBit, i + shift);
      assert |view| == n;
      OffsetIndex(offset, endBit - i);
    }
  }

  lemma OffsetIndex(offset: nat, i: nat)
    ensures (8 * offset + i) / 8 == offset + i / 8 && (8 * offset + i) % 8 == i % 8
  {
  }

  /** A field that starts in the first byte is written exactly for values that fit it and payloads that hold it. */
  lemma SetBigSucceeds(p: seq<byte>, offset: nat, startBit: nat, endBit: nat, val: int)
    requires startBit < 8 && startBit <= endBit
    ensures SetBig(p, offset, startBit, endBit, val).Ok?
       <==> 0 <= val <= Mask(Width(startBit, endBit)) && Inside(p, offset, endBit)
  {
    hide Mask, WrittenNumber, FromBytes, ToBytes, Pow256, Overwrite;
    var n, width := ByteLength(startBit, endBit), Width(startBit, endBit);
    var view := View(p, offset, startBit, endBit);
    assert SetShiftBig(startBit, endBit) == 7 - endBit % 8;
    assert |view| == n <==> Inside(p, offset, endBit);
    if 0 <= val <= Mask(width) && |view| == n {
      FromBytesBound(view);
      WrittenNumberFits(FromBytes(view), 7 - endBit % 8, width, val, n);
    }
  }

  /** A big-endian write sets the field's bits to the value's, its last bit lowest, and changes no other bit of the payload. */
  lemma SetBigBits(p: seq<byte>, offset: nat, startBit: nat, endBit: nat, val: nat, q: nat)
    requires startBit < 8 && startBit <= endBit && Inside(p, offset, endBit) && val <= Mask(Width(startBit, endBit))
    ensures var r := SetBig(p, offset, startBit, endBit, val);
      && r.Ok? && |r.value| == |p|
      && BigBit(r.value, q) ==
         if 8 * offset + startBit <= q <= 8 * offset + endBit then BitAt(val, 8 * offset + endBit - q) else BigBit(p, q)
  {
    hide WrittenNumber, Mask, FromBytes, ToBytes, Pow256, BitAt;
    var n, width, shift := ByteLength(startBit, endBit), Width(startBit, endBit), 7 - endBit % 8;
    var view := View(p, offset, startBit, endBit);
    SetBigSucceeds(p, offset, startBit, endBit, val);
    var value := WrittenNumber(FromBytes(view), shift, width, val);
    assert SetBig(p, offset, startBit, endBit, val) == Ok(Overwrite(p, offset, ToBytes(value, n)));
    if 8 * offset <= q < 8 * (offset + n) {
      var t := 8 * (offset + n) - 1 - q;
      FrontBit(n, endBit, t);
      OffsetIndex(offset, q - 8 * offset);
      ToBytesBits(value, n, n - 1 - t / 8, t % 8);
      WrittenBits(FromBytes(view), shift, width, val, t);
      FromBytesBits(view, t);
      assert t == 8 * (t / 8) + t % 8;
    } else {
      assert q / 8 < offset || q / 8 >= offset + n;
    }
  }

  /** The getter's shift in every shape: by the end bit within a byte, to the field's end from the first byte on, none else. */
  lemma GetShiftExact(startBit: nat, endBit: nat)
    requires WellShaped(startBit, endBit)
    ensures GetShiftBig(startBit, endBit) ==
      if startBit / 8 == endBit / 8 then endBit % 8 else if startBit < 8 then 7 - endBit % 8 else 0
  {
    if startBit >= 8 && startBit / 8 != endBit / 8 {
      assert 8 * ByteLength(startBit, endBit) - 1 - endBit < 0;
    }
  }

  // ---------- the view object ----------

  datatype Endian = Little | Big

  function ReadField(p: seq<byte>, offset: nat, startBit: nat, endBit: nat, endian: Endian): nat
    requires WellShaped(startBit, endBit)
  {
    if endian.Big? then GetBig(p, offset, startBit, endBit) else GetLittle(p, offset, startBit, endBit)
  }

  function WriteField(p: seq<byte>, offset: nat, startBit: nat, endBit: nat, endian: Endian, val: int): Result<seq<byte>>
    requires WellShaped(startBit, endBit)
  {
    if endian.Big? then SetBig(p, offset, startBit, endBit, val) else SetLittle(p, offset, startBit, endBit, val)
  }

  /** What a view reads: its bits, lowest first from the start of a little-endian field, from the end of a big-endian one. */
  lemma ReadFieldBits(p: seq<byte>, offset: nat, startBit: nat, endBit: nat, endian: Endian, i: nat)
    requires WellShaped(startBit, endBit) && (endian.Big? ==> startBit < 8 <= endBit && Inside(p, offset, endBit))
    ensures BitAt(ReadField(p, offset, startBit, endBit, endian), i) ==
      (i < Width(startBit, endBit)
       && if endian.Big? then BigBit(p, 8 * offset + endBit - i) else PayloadBit(p, 8 * offset + startBit + i))
  {
    hide BitAt, GetBig, GetLittle, BigBit, PayloadBit;
    if endian.Big? {
      GetBigBits(p, offset, startBit, endBit, i);
    } else {
      GetLittleBits(p, offset, startBit, endBit, i);
    }
  }

  /** What a view writes, in the same terms: its bits become the value's and every other bit stays. */
  lemma WriteFieldBits(p: seq<byte>, offset: nat, startBit: nat, endBit: nat, endian: Endian, val: nat, q: nat)
    requires WellShaped(startBit, endBit) && (endian.Big? ==> startBit < 8)
    requires Inside(p, offset, endBit) && val <= Mask(Width(startBit, endBit))
    ensures var r := WriteField(p, offset, startBit, endBit, endian, val);
      var inField := 8 * offset + startBit <= q <= 8 * offset + endBit;
      && r.Ok? && |r.value| == |p|
      && (endian.Big? ==> BigBit(r.value, q) == if inField then BitAt(val, 8 * offset + endBit - q) else BigBit(p, q))
      && (endian.Little? ==> PayloadBit(r.value, q) == if inField then BitAt(val, q - (8 * offset + startBit)) else PayloadBit(p, q))
  {
    hide BitAt, SetBig, SetLittle, BigBit, PayloadBit, Mask;
    if endian.Big? {
      SetBigBits(p, offset, startBit, endBit, val, q);
    } else {
      SetLittleSucceeds(p, offset, startBit, endBit, val);
      SetLittleBits(p, offset, startBit, endBit, val, q);
    }
  }

  /** A view of some bits of a payload that other views share. */
  class BaseFieldBit {
    const startBit: nat
    const endBit: nat
    const endian: Endian
    const payload: array<byte>
    const startOffset: nat
    var currentValue: nat

    constructor (payload: array<byte>, startBit: nat, endBit: nat, startOffset: nat, endian: Endian)
      requires WellShaped(startBit, endBit)
      ensures this.payload == payload && this.startBit == startBit && this.endBit == endBit
      ensures this.startOffset == startOffset && this.endian == endian
      ensures currentValue == ReadField(payload[..], startOffset, startBit, endBit, endian)
    {
      this.payload, this.startBit, this.endBit, this.startOffset, this.endian := payload, startBit, endBit, startOffset, endian;
      currentValue := 0;
      new;
      UpdateValue();
    }

    method UpdateValue()
      requires WellShaped(startBit, endBit)
      modifies `currentValue
      ensures currentValue == ReadField(payload[..], startOffset, startBit, endBit, endian)
    {
      var bitLength, byteLength := Width(startBit, endBit), ByteLength(startBit, endBit);
      var byteData := View(payload[..], startOffset, startBit, endBit);
      var value := if endian.Big? then FromBytes(byteData) else FromLittle(byteData);
      var mask := Mask(bitLength);
      var shiftAmount: int;
      if endian.Big? {
        if byteLength == 1 {
          shiftAmount := endBit % 8;
        } else {
          shiftAmount := 8 * byteLength - 1 - endBit;
        }
        if shiftAmount < 0 {
          shiftAmount := 0;
        }
      } else {
        shiftAmount := startBit % 8;
      }
      currentValue := And(Shr(value, shiftAmount), mask);
    }

    method GetValue() returns (value: nat)
      requires WellShaped(startBit, endBit)
      modifies `currentValue
      ensures value == currentValue == ReadField(payload[..], startOffset, startBit, endBit, endian)
    {
      UpdateValue();
      return currentValue;
    }

    /** Write the field in place; the payload is untouched when the write raises. */
    method SetValue(val: int) returns (error: Option<Error>)
      requires WellShaped(startBit, endBit)
      modifies payload
      ensures match WriteField(old(payload[..]), startOffset, startBit, endBit, endian, val)
              case Ok(p) => error == None && payload[..] == p
              case Err(e) => error == Some(e) && payload[..] == old(payload[..])
    {
      hide And, Or, AndNot, Shr, FromBytes, FromLittle, ToBytes, ToLittle;
      var bitLength, byteLength := Width(startBit, endBit), ByteLength(startBit, endBit);
      var byteData := View(payload[..], startOffset, startBit, endBit);
      var mask := Mask(bitLength);
      if val > mask { return Some(ValueError); }
      var value := if endian.Big? then FromBytes(byteData) else FromLittle(byteData);
      var shift: int := if endian.Big? then 8 * byteLength - 1 - endBit else startBit % 8;
      if shift < 0 { return Some(ValueError); }
      var bitMask := Shl(mask, shift);
      value := AndNot(value, bitMask);
      if val < 0 { return Some(OverflowError); }
      value := Or(value, Shl(val, shift));
      if endian.Big? && value >= Pow256(byteLength) { return Some(OverflowError); }
      var newBytes := if endian.Big? then ToBytes(value, byteLength) else ToLittle(value, byteLength);
      if |byteData| != byteLength { return Some(BufferError); }
      WriteSlice(payload, startBit / 8 + startOffset, newBytes);
      return None;
    }
  }

  /** Two little-endian views of one payload without a common bit: writing one leaves the other's value. */
  method WriteBeside(a: BaseFieldBit, b: BaseFieldBit, val: nat) returns (got: nat, beside: nat)
    requires a.payload == b.payload && a.endian == b.endian == Little
    requires WellShaped(a.startBit, a.endBit) && WellShaped(b.startBit, b.endBit)
    requires Inside(a.payload[..], a.startOffset, a.endBit) && val <= Mask(Width(a.startBit, a.endBit))
    requires 8 * a.startOffset + a.endBit < 8 * b.startOffset + b.startBit || 8 * b.startOffset + b.endBit < 8 * a.startOffset + a.startBit
    modifies a.payload, a`currentValue, b`currentValue
    ensures got == val && beside == old(ReadField(b.payload[..], b.startOffset, b.startBit, b.endBit, b.endian))
  {
    hide GetLittle, SetLittle, GetBig, SetBig;
    ghost var p := a.payload[..];
    SetLittleSucceeds(p, a.startOffset, a.startBit, a.endBit, val);
    SetThenGetLittle(p, a.startOffset, a.startBit, a.endBit, val);
    DisjointFieldKeepsValue(p, a.startOffset, a.startBit, a.endBit, val, b.startOffset, b.startBit, b.endBit);
    var error := a.SetValue(val);
    got := a.GetValue();
    beside := b.GetValue();
  }
}
