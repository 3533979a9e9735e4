/** The arithmetic forms used in the model are the source's bitwise masks. */
module Masks {
  import opened Bits
  import opened LongMath
  import opened Memory
  import Paging
  import RealModeStack
  import Remap
  import Visor

  /** Keeping or dropping everything below bit k, for a value of n bits. */
  lemma MaskAtBit(n: nat, k: nat, x: nat, high: nat, low: nat)
    requires k <= n && low < Pow2(k) && high < Pow2(n - k) && x == high * Pow2(k) + low
    ensures And(x, (Pow2(n - k) - 1) * Pow2(k)) == high * Pow2(k)
    ensures And(x, Pow2(k) - 1) == low
    ensures Or(x, Pow2(k) - 1) == high * Pow2(k) + Pow2(k) - 1
  {
    hide And, Or;
    AndSplit(k, high, low, Pow2(n - k) - 1, 0);
    AndSplit(k, high, low, 0, Pow2(k) - 1);
    OrSplit(k, high, low, 0, Pow2(k) - 1);
    FullMask(n - k, high);
    FullMask(k, low);
    ZeroOperand(low);
    ZeroOperand(high);
  }

  lemma ZeroOperand(x: nat)
    ensures And(x, 0) == 0 && Or(x, 0) == x && And(0, x) == 0 && Or(0, x) == x
  {
  }

  lemma LowestBit(n: nat, high: nat, bit: nat)
    requires bit < 2 && high < Pow2(n)
    ensures And(high * 2 + bit, (Pow2(n) - 1) * 2) == high * 2
    ensures Or(high * 2 + bit, 1) == high * 2 + 1
    ensures Or(high * 2 + bit, (Pow2(n) - 1) * 2) == (Pow2(n) - 1) * 2 + bit
  {
    hide And, Or;
    var ones := Pow2(n) - 1;
    FullMask(n, high);
    ZeroOperand(high);
    AndStep(high * 2 + bit, ones * 2);
    OrStep(high * 2 + bit, 1);
    OrStep(high * 2 + bit, ones * 2);
  }

  /** Clearing and setting the bit at position k, between high and low. */
  lemma ClearOneBit(n: nat, k: nat, high: nat, bit: nat, low: nat)
    requires bit < 2 && low < Pow2(k) && high < Pow2(n)
    ensures And((high * 2 + bit) * Pow2(k) + low, ((Pow2(n) - 1) * 2) * Pow2(k) + (Pow2(k) - 1)) ==
            (high * 2) * Pow2(k) + low
  {
    hide And;
    AndSplit(k, high * 2 + bit, low, (Pow2(n) - 1) * 2, Pow2(k) - 1);
    FullMask(k, low);
    LowestBit(n, high, bit);
  }

  lemma SetOneBit(n: nat, k: nat, high: nat, bit: nat, low: nat)
    requires bit < 2 && low < Pow2(k) && high < Pow2(n)
    ensures Or((high * 2 + bit) * Pow2(k) + low, Pow2(k)) == (high * 2 + 1) * Pow2(k) + low
  {
    hide Or;
    OrSplit(k, high * 2 + bit, low, 1, 0);
    ZeroOperand(low);
    LowestBit(n, high, bit);
  }

  lemma SetAllButOneBit(n: nat, k: nat, high: nat, bit: nat, low: nat)
    requires bit < 2 && low < Pow2(k) && high < Pow2(n)
    ensures Or((high * 2 + bit) * Pow2(k) + low, ((Pow2(n) - 1) * 2) * Pow2(k) + (Pow2(k) - 1)) ==
            ((Pow2(n) - 1) * 2 + bit) * Pow2(k) + (Pow2(k) - 1)
  {
    hide Or;
    OrSplit(k, high * 2 + bit, low, (Pow2(n) - 1) * 2, Pow2(k) - 1);
    FullMask(k, low);
    LowestBit(n, high, bit);
  }

  /** Addresses and page table entries. */
  lemma PageMasks(x: Dword)
    ensures And(x, 0xFFFF_F000) == Paging.PageOf(x) && And(x, 0xFFF) == Paging.Offset(x)
    ensures Or(x, 7) == x - x % 8 + 7
    ensures And(x, 0xFFFF_FFFE) == x - x % 2 && Or(x, 1) == x - x % 2 + 1
  {
    hide And, Or;
    assert Pow2(12) == 0x1000 && Pow2(20) == 0x10_0000 && Pow2(3) == 8 && Pow2(29) == 0x2000_0000 &&
           Pow2(31) == 0x8000_0000;
    assert Pow2(1) == 2;
    MaskAtBit(32, 12, x, x / 0x1000, x % 0x1000);
    MaskAtBit(32, 3, x, x / 8, x % 8);
    MaskAtBit(32, 1, x, x / 2, x % 2);
  }

  /** The entries ChangeMappingTableEntries stores. */
  lemma EntryMask(newStart: Dword, k: nat)
    ensures Remap.NewEntry(newStart, k) == Or((0x1000 * k + newStart) % MEM_SIZE, 7)
  {
    hide Or;
    PageMasks((0x1000 * k + newStart) % MEM_SIZE);
  }

  /** RFLAGS: bit 9 is IF, bit 8 TF. */
  lemma ClearIf(x: Word)
    ensures And(x, 0xFDFF) == x - x / 0x200 % 2 * 0x200
  {
    hide And;
    assert Pow2(9) == 0x200 && Pow2(6) == 0x40;
    ClearOneBit(6, 9, x / 0x400, x / 0x200 % 2, x % 0x200);
    assert x == (x / 0x400 * 2 + x / 0x200 % 2) * 0x200 + x % 0x200;
  }

  lemma SetIf(x: Word)
    ensures Or(x, 0x200) == x - x / 0x200 % 2 * 0x200 + 0x200
  {
    hide Or;
    assert Pow2(9) == 0x200 && Pow2(6) == 0x40;
    SetOneBit(6, 9, x / 0x400, x / 0x200 % 2, x % 0x200);
    assert x == (x / 0x400 * 2 + x / 0x200 % 2) * 0x200 + x % 0x200;
  }

  lemma ClearTf(x: Word)
    ensures And(x, 0xFEFF) == x - x / 0x100 % 2 * 0x100
  {
    hide And;
    assert Pow2(8) == 0x100 && Pow2(7) == 0x80;
    ClearOneBit(7, 8, x / 0x200, x / 0x100 % 2, x % 0x100);
    assert x == (x / 0x200 * 2 + x / 0x100 % 2) * 0x100 + x % 0x100;
  }

  lemma TwoBits(x: Word)
    ensures var y := x - x / 0x200 % 2 * 0x200;
            && 0 <= y && y + 0x200 < 0x1_0000
            && y - y / 0x100 % 2 * 0x100 == RealModeStack.ClearIfTf(x)
            && (y + 0x200) - (y + 0x200) / 0x100 % 2 * 0x100 == RealModeStack.SetIfClearTf(x)
  {
    var z, l := x / 0x100, x % 0x100;
    assert x / 0x200 == z / 2;
    var y := x - z / 2 % 2 * 0x200;
    assert y == (z - z / 2 % 2 * 2) * 0x100 + l;
    assert y / 0x100 == z - z / 2 % 2 * 2 && (y + 0x200) / 0x100 == y / 0x100 + 2;
    assert z % 4 == z / 2 % 2 * 2 + z % 2;
  }

  lemma FlagMasks(x: Word)
    ensures And(And(x, 0xFDFF), 0xFEFF) == RealModeStack.ClearIfTf(x)
    ensures And(Or(x, 0x200), 0xFEFF) == RealModeStack.SetIfClearTf(x)
  {
    hide And, Or;
    TwoBits(x);
    ClearIf(x);
    SetIf(x);
    ClearTf(x - x / 0x200 % 2 * 0x200);
    ClearTf(x - x / 0x200 % 2 * 0x200 + 0x200);
  }

  /** The dispatcher's updates of the clean bits. */
  lemma CleanBitMasks(x: Word)
    ensures Or(x, 0xFEFF) == Visor.OrFeff(x) && Or(x, 0x100) == Visor.Or100(x)
  {
    hide Or;
    assert Pow2(8) == 0x100 && Pow2(7) == 0x80;
    SetAllButOneBit(7, 8, x / 0x200, x / 0x100 % 2, x % 0x100);
    SetOneBit(7, 8, x / 0x200, x / 0x100 % 2, x % 0x100);
    assert x == (x / 0x200 * 2 + x / 0x100 % 2) * 0x100 + x % 0x100;
  }

  /** Selecting the w bits from bit k on, with p and q the powers of two. */
  lemma FieldOf(k: nat, w: nat, p: nat, q: nat, mask: nat, x: nat)
    requires p == Pow2(k) && q == Pow2(w) && mask == (q - 1) * p
    ensures And(x, mask) == x / p % q * p
  {
    hide And, Pow2;
    var high, low := x / p, x % p;
    NonNegativeQuotient(x, p);
    AndSplit(k, high, low, q - 1, 0);
    ZeroOperand(low);
    LowField(w, q, high);
  }

  lemma LowField(w: nat, q: nat, x: nat)
    requires q == Pow2(w)
    ensures And(x, q - 1) == x % q
  {
    hide And, Pow2;
    NonNegativeQuotient(x, q);
    AndSplit(w, x / q, x % q, 0, q - 1);
    ZeroOperand(x / q);
    FullMask(w, x % q);
  }

  /** The bits the handlers test: IF, the direction and size of an I/O exit, bit 3 of AH, and the
      valid bit of EXITINTINFO. */
  lemma BitMasks(x: Dword)
    ensures And(x, 1) == x % 2 && And(x, 0x10) == x / 0x10 % 2 * 0x10 && And(x, 0x20) == x / 0x20 % 2 * 0x20
    ensures And(x, 0x200) == x / 0x200 % 2 * 0x200 && And(x, 0x800) == x / 0x800 % 2 * 0x800
    ensures And(x, 0x8000_0000) == x / 0x8000_0000 % 2 * 0x8000_0000
  {
    Powers();
    hide And, Pow2;
    FieldOf(0, 1, 1, 2, 1, x);
    FieldOf(4, 1, 0x10, 2, 0x10, x);
    FieldOf(5, 1, 0x20, 2, 0x20, x);
    FieldOf(9, 1, 0x200, 2, 0x200, x);
    FieldOf(11, 1, 0x800, 2, 0x800, x);
    FieldOf(31, 1, 0x8000_0000, 2, 0x8000_0000, x);
  }

  /** The fields they cut out: the ModRM register, the sector in CL, the low half of AH, and the
      bytes of a forwarded OUT. */
  lemma FieldMasks(x: Dword)
    ensures And(x, 7) == x % 8 && And(x, 0x3F) == x % 0x40 && And(x, 0xF00) == x / 0x100 % 0x10 * 0x100
    ensures And(x, 0xFF) == x % 0x100 && And(x, 0xFF00) == x / 0x100 % 0x100 * 0x100
    ensures And(x, 0xFF_0000) == x / 0x1_0000 % 0x100 * 0x1_0000
    ensures And(x, 0xFF00_0000) == x / 0x100_0000 % 0x100 * 0x100_0000
  {
    Powers();
    hide And, Pow2;
    FieldOf(0, 3, 1, 8, 7, x);
    FieldOf(0, 6, 1, 0x40, 0x3F, x);
    FieldOf(8, 4, 0x100, 0x10, 0xF00, x);
    FieldOf(0, 8, 1, 0x100, 0xFF, x);
    FieldOf(8, 8, 0x100, 0x100, 0xFF00, x);
    FieldOf(16, 8, 0x1_0000, 0x100, 0xFF_0000, x);
    FieldOf(24, 8, 0x100_0000, 0x100, 0xFF00_0000, x);
  }

  lemma Powers()
    ensures Pow2(0) == 1 && Pow2(1) == 2 && Pow2(3) == 8 && Pow2(4) == 0x10 && Pow2(5) == 0x20 && Pow2(6) == 0x40
    ensures Pow2(8) == 0x100 && Pow2(9) == 0x200 && Pow2(11) == 0x800 && Pow2(16) == 0x1_0000 && Pow2(24) == 0x100_0000
    ensures Pow2(31) == 0x8000_0000
  {
  }

  /** Values put together from parts that do not overlap: a frame and an offset, an event and its
      vector, an error status and AL. */
  lemma JoinMasks(entry: Dword, a: Dword)
    ensures Or(And(entry, 0xFFFF_F000), And(a, 0xFFF)) == Paging.Join(entry, a)
  {
    hide And, Or;
    PageMasks(entry);
    PageMasks(a);
    assert Pow2(12) == 0x1000;
    OrSplit(12, entry / 0x1000, 0, 0, a % 0x1000);
    ZeroOperand(entry / 0x1000);
    ZeroOperand(a % 0x1000);
  }

  lemma ByteBelow(high: nat, b: Byte)
    ensures Or(high * 0x100, b) == high * 0x100 + b
  {
    hide Or;
    assert Pow2(8) == 0x100;
    OrSplit(8, high, 0, 0, b);
    ZeroOperand(high);
    ZeroOperand(b);
  }

  lemma VectorAndStatusMasks(b: Byte)
    ensures Or(0x8000_0400, b) == 0x8000_0400 + b && Or(0x8600, b) == 0x8600 + b
  {
    hide Or;
    ByteBelow(0x80_0004, b);
    ByteBelow(0x86, b);
  }
}
