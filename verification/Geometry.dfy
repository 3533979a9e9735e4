/** Disk addresses: linear to cylinder/head/sector and back, the boot loader's 16-bit division
    routine, and the packing of cylinder and sector into CX. */
module Geometry {
  import opened Memory
  import opened Bits
  import opened LongMath

  datatype Chs = Chs(cylinder: int, head: int, sector: int)

  predicate Shape(spt: int, heads: int) { spt > 0 && heads > 0 }

  function LbaToChs(lba: nat, spt: int, heads: int): Chs
    requires Shape(spt, heads)
  {
    var track := lba / spt;
    Chs(track / heads, track % heads, lba % spt + 1)
  }

  function ChsToLba(a: Chs, spt: int, heads: int): int {
    (a.cylinder * heads + a.head) * spt + a.sector - 1
  }

  predicate OnDisk(a: Chs, spt: int, heads: int) {
    a.cylinder >= 0 && 0 <= a.head < heads && 1 <= a.sector <= spt
  }

  predicate Before(a: Chs, b: Chs) {
    a.cylinder < b.cylinder
    || (a.cylinder == b.cylinder && (a.head < b.head || (a.head == b.head && a.sector < b.sector)))
  }

  /** Every linear address has a place on the disk and comes back from it. */
  lemma LbaRoundTrip(lba: nat, spt: int, heads: int)
    requires Shape(spt, heads)
    ensures OnDisk(LbaToChs(lba, spt, heads), spt, heads)
    ensures ChsToLba(LbaToChs(lba, spt, heads), spt, heads) == lba
  {
    NonNegativeQuotient(lba, spt);
    NonNegativeQuotient(lba / spt, heads);
  }

  /** Every place on the disk has a linear address and comes back from it. */
  lemma ChsRoundTrip(a: Chs, spt: int, heads: int)
    requires Shape(spt, heads) && OnDisk(a, spt, heads)
    ensures ChsToLba(a, spt, heads) >= 0 && LbaToChs(ChsToLba(a, spt, heads), spt, heads) == a
  {
    var track := a.cylinder * heads + a.head;
    assert track >= 0;
    assert track * spt >= 0;
    DivisionUnique(track * spt + (a.sector - 1), spt, track, a.sector - 1);
    DivisionUnique(track, heads, a.cylinder, a.head);
  }

  // ----- on 32 bits -----

  const INT_MAX: int := 0x8000_0000

  type Int32 = x: int | -0x8000_0000 <= x < 0x8000_0000

  /** A DWORD passed where an int is expected. */
  function AsInt32(x: Dword): Int32 {
    if x < INT_MAX then x else x - MEM_SIZE
  }

  /** chsToLBA with its arithmetic wrapping at 32 bits, returned unsigned. */
  function ChsToLba32(a: Chs, spt: int, heads: int): Dword {
    ChsToLba(a, spt, heads) % MEM_SIZE
  }

  function Negated(x: Int32): int {
    var i: int := x;
    -i
  }

  /** The C quotient, which truncates towards zero. */
  function Truncated(x: Int32, d: Int32): int
    requires d > 0
  {
    if x >= 0 then x / d else -(Negated(x) / d)
  }

  /** lbaToCHS on an int: a signed quotient stored in a DWORD, which is then divided unsigned. */
  function LbaToChs32(lba: Int32, spt: Int32, heads: Int32): Chs
    requires Shape(spt, heads)
  {
    var q := Truncated(lba, spt);
    var track := q % MEM_SIZE;
    Chs(SignedQuotient(track, heads), track % heads, lba - q * spt + 1)
  }

  /** An unsigned quotient taken for an int. */
  function SignedQuotient(x: Dword, d: Int32): int
    requires d > 0
  {
    if x / d < INT_MAX then x / d else x / d - MEM_SIZE
  }

  function Track(a: Chs, heads: int): int {
    a.cylinder * heads + a.head
  }

  lemma SmallRoundTrip(a: Chs, spt: Int32, heads: Int32)
    requires Shape(spt, heads) && OnDisk(a, spt, heads) && a.cylinder < INT_MAX && ChsToLba(a, spt, heads) < INT_MAX
    ensures ChsToLba(a, spt, heads) >= 0
    ensures LbaToChs32(AsInt32(ChsToLba32(a, spt, heads)), spt, heads) == a
  {
    ChsRoundTrip(a, spt, heads);
    NonNegativeTruncated(ChsToLba(a, spt, heads), spt, heads);
  }

  lemma NonNegativeTruncated(lba: Int32, spt: Int32, heads: Int32)
    requires Shape(spt, heads) && lba >= 0
    ensures LbaToChs32(lba, spt, heads) == LbaToChs(lba, spt, heads)
  {
    NonNegativeQuotient(lba, spt);
    QuotientFits(lba, spt);
    QuotientFits(lba / spt, heads);
  }

  /** What lbaToCHS makes of a negative int: sector 1 only on a track boundary, and the track
      counted down from 2^32. */
  lemma NegativeLba(w: Int32, a: Chs, spt: Int32, heads: Int32)
    requires Shape(spt, heads) && OnDisk(a, spt, heads) && a.cylinder < INT_MAX && w < 0
    ensures LbaToChs32(w, spt, heads) == a <==>
            a.sector == 1 && Track(a, heads) == MEM_SIZE - Negated(w) / spt && Negated(w) % spt == 0
  {
    hide LbaToChs32;
    var n, r := Negated(w) / spt, Negated(w) % spt;
    NegativePlace(w, spt, heads);
    QuotientFits(Negated(w), spt);
    if n > 0 {
      SameTrack(a, heads, MEM_SIZE - n);
    } else {
      assert r > 0;
    }
  }

  /** The place computed, with the quotient n and the remainder r of -w. */
  lemma NegativePlace(w: Int32, spt: Int32, heads: Int32)
    requires Shape(spt, heads) && w < 0
    ensures var n, r, p := Negated(w) / spt, Negated(w) % spt, LbaToChs32(w, spt, heads);
            && 0 <= n < MEM_SIZE && 0 <= r && p.sector == 1 - r && (n == 0 ==> r > 0)
            && (n > 0 ==> p.cylinder == SignedQuotient(MEM_SIZE - n, heads) && p.head == (MEM_SIZE - n) % heads)
  {
    var n, r := Negated(w) / spt, Negated(w) % spt;
    NonNegativeQuotient(Negated(w), spt);
    QuotientFits(Negated(w), spt);
    hide SignedQuotient;
    NegativeSector(w, n, spt, r);
    NegativeTrack(n);
  }

  lemma NegativeSector(w: int, n: int, d: int, r: int)
    requires -w == n * d + r
    ensures w - -n * d + 1 == 1 - r
  {
    assert -n * d == -(n * d);
  }

  lemma NegativeTrack(n: int)
    requires 0 <= n < MEM_SIZE
    ensures -n % MEM_SIZE == if n == 0 then 0 else MEM_SIZE - n
  {
  }

  /** A track number on 32 bits, divided and stored in an int, gives a back exactly if it is a's. */
  lemma SameTrack(a: Chs, heads: Int32, track: Dword)
    requires heads > 0 && 0 <= a.cylinder < INT_MAX && 0 <= a.head < heads
    ensures SignedQuotient(track, heads) == a.cylinder && track % heads == a.head <==> Track(a, heads) == track
  {
    NonNegativeQuotient(track, heads);
    QuotientFits(track, heads);
    if Track(a, heads) == track {
      DivisionUnique(track, heads, a.cylinder, a.head);
    }
  }

  /** The negative ints that a place on the disk can wrap to without losing its way back. */
  predicate WrapsBack(a: Chs, spt: int, heads: int)
    requires spt > 0
  {
    a.sector == 1 && MEM_SIZE - INT_MAX / spt <= Track(a, heads) < MEM_SIZE
  }

  lemma WrappedLba(a: Chs, spt: Int32, heads: Int32)
    requires Shape(spt, heads) && OnDisk(a, spt, heads) && WrapsBack(a, spt, heads)
    ensures ChsToLba(a, spt, heads) >= INT_MAX
    ensures AsInt32(ChsToLba32(a, spt, heads)) == -((MEM_SIZE - Track(a, heads)) * spt)
  {
    var n := MEM_SIZE - Track(a, heads);
    AtLeastOne(n, spt);
    FitsBelow(n, spt);
    var lba := ChsToLba(a, spt, heads);
    assert Track(a, heads) * spt == MEM_SIZE * spt - n * spt;
    assert lba == MEM_SIZE * (spt - 1) + (MEM_SIZE - n * spt);
    DivisionUnique(lba, MEM_SIZE, spt - 1, MEM_SIZE - n * spt);
  }

  lemma FitsBelow(n: nat, spt: Int32)
    requires spt > 0 && n <= INT_MAX / spt
    ensures n * spt <= INT_MAX
  {
    NonNegativeQuotient(INT_MAX, spt);
    NoMore(n, INT_MAX / spt, spt);
  }

  lemma NoMore(n: nat, q: nat, d: nat)
    requires n <= q
    ensures n * d <= q * d
  {
    assert (q - n) * d >= 0;
  }

  /** The round trip through a 32-bit address works exactly while the address fits an int, or, by
      wrapping twice, for the first sector of the last 2^31 / spt of 2^32 tracks. */
  lemma RoundTripOn32BitsExactlyWhen(a: Chs, spt: Int32, heads: Int32)
    requires Shape(spt, heads) && OnDisk(a, spt, heads) && a.cylinder < INT_MAX
    ensures LbaToChs32(AsInt32(ChsToLba32(a, spt, heads)), spt, heads) == a <==>
            ChsToLba(a, spt, heads) < INT_MAX || WrapsBack(a, spt, heads)
  {
    hide LbaToChs32, ChsToLba, WrapsBack, Track;
    var lba, w := ChsToLba(a, spt, heads), AsInt32(ChsToLba32(a, spt, heads));
    if lba < INT_MAX {
      SmallRoundTrip(a, spt, heads);
    } else if w >= 0 {
      if WrapsBack(a, spt, heads) {
        WrappedLba(a, spt, heads);
        NegativeProduct(a, spt, heads);
      }
      NonNegativeTruncated(w, spt, heads);
      LbaRoundTrip(w, spt, heads);
    } else {
      NegativeLba(w, a, spt, heads);
      BackAgain(w, a, spt, heads);
    }
  }

  lemma NegativeProduct(a: Chs, spt: Int32, heads: Int32)
    requires spt > 0 && WrapsBack(a, spt, heads)
    ensures (MEM_SIZE - Track(a, heads)) * spt > 0
  {
    AtLeastOne(MEM_SIZE - Track(a, heads), spt);
  }

  lemma BackAgain(w: Int32, a: Chs, spt: Int32, heads: Int32)
    requires Shape(spt, heads) && OnDisk(a, spt, heads) && w < 0 && w == AsInt32(ChsToLba32(a, spt, heads))
    ensures WrapsBack(a, spt, heads) <==>
            a.sector == 1 && Track(a, heads) == MEM_SIZE - Negated(w) / spt && Negated(w) % spt == 0
  {
    hide ChsToLba, Track;
    if WrapsBack(a, spt, heads) {
      WrappedLba(a, spt, heads);
      var n := MEM_SIZE - Track(a, heads);
      DivisionUnique(n * spt, spt, n, 0);
    } else if a.sector == 1 && Track(a, heads) == MEM_SIZE - Negated(w) / spt && Negated(w) % spt == 0 {
      var n := Negated(w) / spt;
      NonNegativeQuotient(Negated(w), spt);
      NonNegativeQuotient(INT_MAX, spt);
      if n > INT_MAX / spt {
        AtLeastOne(n - INT_MAX / spt, spt);
      }
    }
  }

  /** Linear order is the lexicographic order of cylinder, head, sector. */
  lemma OrderIsLexicographic(a: Chs, b: Chs, spt: int, heads: int)
    requires Shape(spt, heads) && OnDisk(a, spt, heads) && OnDisk(b, spt, heads)
    ensures ChsToLba(a, spt, heads) < ChsToLba(b, spt, heads) <==> Before(a, b)
  {
    if Before(a, b) {
      BeforeIsLess(a, b, spt, heads);
    } else if Before(b, a) {
      BeforeIsLess(b, a, spt, heads);
    }
  }

  lemma BeforeIsLess(a: Chs, b: Chs, spt: int, heads: int)
    requires Shape(spt, heads) && OnDisk(a, spt, heads) && OnDisk(b, spt, heads) && Before(a, b)
    ensures ChsToLba(a, spt, heads) < ChsToLba(b, spt, heads)
  {
    var s, t := a.cylinder * heads + a.head, b.cylinder * heads + b.head;
    if a.cylinder < b.cylinder {
      AtLeastOne(b.cylinder - a.cylinder, heads);
      assert (b.cylinder - a.cylinder) * heads == b.cylinder * heads - a.cylinder * heads;
    }
    if s < t {
      AtLeastOne(t - s, spt);
      assert (t - s) * spt == t * spt - s * spt;
    }
  }

  // ----- LBACHS -----

  /** The unsigned DIV: quotient and remainder. */
  function Quotient(x: nat, d: nat): (q: nat)
    requires d > 0
    ensures q <= x
  {
    QuotientFits(x, d);
    x / d
  }

  function Remainder(x: nat, d: nat): (r: nat)
    requires d > 0
    ensures r < d
  {
    QuotientFits(x, d);
    x % d
  }

  /** LBACHS on the registers: EAX holds the address, DX is saved on the stack, and the two
      divisions are a 32-bit and a 16-bit one.  Only the low half of EDX is cleared before the
      first, and only the low half of its quotient enters the second.  The divide faults are
      reported and stop the routine. */
  method LbaChs(c: Cpu, sectorsPerTrack: Word, numHeads: Word) returns (fault: bool)
    modifies c
    ensures fault <==>
            sectorsPerTrack == 0 || numHeads == 0 || Dividend(old(c.edx), old(c.eax)) >= sectorsPerTrack * MEM_SIZE
    ensures !fault ==>
              Chs(c.ecx % 0x1_0000, c.ebx % 0x1_0000, c.eax % 0x1_0000) ==
                  Registers(Dividend(old(c.edx), old(c.eax)), sectorsPerTrack, numHeads)
    ensures !fault ==> c.edx == old(c.edx) % 0x1_0000 && c.ebx < 0x1_0000
    ensures !fault ==> c.ecx / 0x1_0000 == old(c.ecx) / 0x1_0000
  {
    hide WithLow, Quotient, Remainder;
    var savedDx: Word := c.edx % 0x1_0000;
    c.edx := WithLow(c.edx, 0);
    c.ebx := sectorsPerTrack;
    var dividend: int := c.edx * MEM_SIZE + c.eax;
    if c.ebx == 0 || dividend >= c.ebx * MEM_SIZE {
      return true;
    }
    QuotientInRange(dividend, c.ebx);
    c.eax, c.edx := Quotient(dividend, c.ebx), Remainder(dividend, c.ebx);
    var savedSector := AddW(c.edx % 0x1_0000, 1);
    c.edx := WithLow(c.edx, 0);
    c.ebx := WithLow(c.ebx, numHeads);
    var bx: Word := c.ebx % 0x1_0000;
    if bx == 0 {
      return true;
    }
    var ax: Word := c.eax % 0x1_0000;
    c.eax, c.edx := WithLow(c.eax, Quotient(ax, bx)), WithLow(c.edx, Remainder(ax, bx));
    c.ecx := WithLow(c.ecx, c.eax % 0x1_0000);
    c.ebx := WithLow(c.ebx, c.edx % 0x1_0000);
    c.eax := WithLow(c.eax, savedSector);
    c.edx := WithLow(c.edx, savedDx);
    fault := false;
  }

  /** EDX:EAX with DX cleared. */
  function Dividend(edx: Dword, eax: Dword): nat {
    (edx - edx % 0x1_0000) * MEM_SIZE + eax
  }

  lemma QuotientInRange(x: nat, d: Dword)
    requires 0 < d && x < d * MEM_SIZE
    ensures Quotient(x, d) < MEM_SIZE
  {
    NonNegativeQuotient(x, d);
  }

  /** What LBACHS leaves in CX, BX and AX; the dividend is the address when EDX is below 64K. */
  function Registers(lba: nat, spt: Word, heads: Word): Chs
    requires Shape(spt, heads)
  {
    hide Quotient, Remainder;
    var track := Quotient(lba, spt) % 0x1_0000;
    Chs(Quotient(track, heads), Remainder(track, heads), AddW(Remainder(lba, spt), 1))
  }

  /** For every dividend the 16-bit routine gives the place of the address modulo 65536 tracks. */
  lemma LbaChsWraps(lba: nat, spt: Word, heads: Word)
    requires Shape(spt, heads)
    ensures Registers(lba, spt, heads) == LbaToChs(lba % (0x1_0000 * spt), spt, heads)
  {
    var q, r := lba / spt, lba % spt;
    NonNegativeQuotient(lba, spt);
    var a, b := q / 0x1_0000, q % 0x1_0000;
    assert q * spt == a * (0x1_0000 * spt) + b * spt;
    ProductGrows(b, 0xFFFF, spt);
    DivisionUnique(lba, 0x1_0000 * spt, a, b * spt + r);
    DivisionUnique(b * spt + r, spt, b, r);
  }

  /** The 16-bit routine is the conversion exactly for addresses below 65536 tracks. */
  lemma LbaChsRightExactlyWhen(lba: Dword, spt: Word, heads: Word)
    requires Shape(spt, heads)
    ensures Registers(lba, spt, heads) == LbaToChs(lba, spt, heads) <==> lba < 0x1_0000 * spt
  {
    var track := lba / spt;
    NonNegativeQuotient(lba, spt);
    TrackBound(lba, spt);
    if Registers(lba, spt, heads) == LbaToChs(lba, spt, heads) {
      NonNegativeQuotient(track, heads);
      NonNegativeQuotient(track % 0x1_0000, heads);
    }
  }

  lemma TrackBound(lba: Dword, spt: Word)
    requires spt > 0
    ensures lba / spt < 0x1_0000 <==> lba < 0x1_0000 * spt
  {
    var q := lba / spt;
    NonNegativeQuotient(lba, spt);
    if q < 0x1_0000 {
      AtLeastOne(0x1_0000 - q, spt);
    } else if q > 0x1_0000 {
      AtLeastOne(q - 0x1_0000, spt);
    }
  }

  // ----- cylinder and sector in CX -----

  /** The packing before the third disk read: the low eight cylinder bits in CH, the next two on
      top of the sector in CL. */
  function PackCx(cylinder: Word, sector: Word): Word {
    var bl: nat := cylinder / 0x100 * 0x40 % 0x100;
    OrInByte(sector % 0x100, bl);
    cylinder % 0x100 * 0x100 + Or(sector % 0x100, bl)
  }

  /** The packing before the first two: only CH and CL. */
  function PackCxShort(cylinder: Word, sector: Word): Word {
    cylinder % 0x100 * 0x100 + sector % 0x100
  }

  lemma OrInByte(x: nat, y: nat)
    requires x < 0x100 && y < 0x100
    ensures Or(x, y) < 0x100
  {
    hide Or;
    assert Pow2(8) == 0x100;
    OrSplit(8, 0, x, 0, y);
  }

  /** A byte register: the low or the second byte of its doubleword. */
  function WithLow8(reg: Dword, b: Byte): (r: Dword)
    ensures r % 0x100 == b && r / 0x100 == reg / 0x100
  {
    reg - reg % 0x100 + b
  }

  function WithHigh8(reg: Dword, b: Byte): (r: Dword)
    ensures r % 0x1_0000 == b * 0x100 + reg % 0x100 && r / 0x1_0000 == reg / 0x1_0000
  {
    reg - reg % 0x1_0000 + b * 0x100 + reg % 0x100
  }

  /** A head put in DH, and DH taken out again. */
  function PackDx(edx: Dword, head: Byte): Dword { WithHigh8(edx, head) }

  function UnpackHead(edx: Dword): Byte { edx / 0x100 % 0x100 }

  /** The head comes back, and DL and the upper half of EDX are as before. */
  lemma HeadRoundTrip(edx: Dword, head: Byte)
    ensures UnpackHead(PackDx(edx, head)) == head
    ensures PackDx(edx, head) % 0x100 == edx % 0x100 && PackDx(edx, head) / 0x1_0000 == edx / 0x1_0000
  {
    SecondByte(PackDx(edx, head));
    FieldOfWord(head, edx % 0x100);
  }

  /** mov dh,bl / mov bl,ch / shl bl,6 / mov ch,cl / mov cl,al / or cl,bl: head to DH, cylinder and
      sector to CX; BL is used up and everything else kept. */
  method PackForRead(c: Cpu)
    modifies c`ebx, c`ecx, c`edx, c`cf, c`zf, c`sf, c`of
    ensures c.ecx % 0x1_0000 == PackCx(old(c.ecx) % 0x1_0000, old(c.eax) % 0x100)
    ensures c.edx == PackDx(old(c.edx), old(c.ebx) % 0x100)
    ensures c.ecx / 0x1_0000 == old(c.ecx) / 0x1_0000 && c.ebx / 0x100 == old(c.ebx) / 0x100
    ensures c.ebx % 0x100 == UnpackHead(old(c.ecx)) * 0x40 % 0x100
  {
    hide WithLow8, WithHigh8, Or, PackCx;
    ghost var cylinder: Word, sector: Byte := c.ecx % 0x1_0000, c.eax % 0x100;
    PackCxIs(cylinder, sector);
    c.edx := WithHigh8(c.edx, c.ebx % 0x100);
    c.ebx := WithLow8(c.ebx, c.ecx / 0x100 % 0x100);
    c.ebx := WithLow8(c.ebx, c.ebx % 0x100 * 0x40 % 0x100);
    SecondByte(old(c.ecx));
    c.ecx := WithHigh8(c.ecx, c.ecx % 0x100);
    ghost var ch := c.ecx;
    c.ecx := WithLow8(c.ecx, c.eax % 0x100);
    OrInByte(c.ecx % 0x100, c.ebx % 0x100);
    c.ecx := WithLow8(c.ecx, Or(c.ecx % 0x100, c.ebx % 0x100));
    CxOf(ch, c.ecx, cylinder % 0x100);
  }

  lemma PackCxIs(cylinder: Word, sector: Byte)
    ensures PackCx(cylinder, sector) == cylinder % 0x100 * 0x100 + Or(sector, cylinder / 0x100 * 0x40 % 0x100)
  {
    hide Or;
    assert sector % 0x100 == sector;
  }

  lemma SecondByte(reg: Dword)
    ensures reg / 0x100 % 0x100 == reg % 0x1_0000 / 0x100 && reg % 0x100 == reg % 0x1_0000 % 0x100
  {
    var q: int, h: int, l: int := reg / 0x1_0000, reg % 0x1_0000 / 0x100, reg % 0x1_0000 % 0x100;
    DivisionUnique(reg, 0x100, q * 0x100 + h, l);
    DivisionUnique(q * 0x100 + h, 0x100, q, h);
  }

  lemma FieldOfWord(h: Byte, l: Byte)
    ensures (h * 0x100 + l) / 0x100 == h && (h * 0x100 + l) % 0x100 == l
  {
  }

  lemma CxOf(before: Dword, after: Dword, ch: Byte)
    requires before % 0x1_0000 / 0x100 == ch && after / 0x100 == before / 0x100
    ensures after % 0x1_0000 == ch * 0x100 + after % 0x100 && after / 0x1_0000 == before / 0x1_0000
  {
    SecondByte(before);
    SecondByte(after);
    var q: int := after / 0x100;
    assert after / 0x1_0000 == q / 0x100 && before / 0x1_0000 == q / 0x100;
  }

  /** How main takes the geometry out of CX: CL & 3Fh, and CH with CL >> 6 above it. */
  function UnpackSector(cx: Word): Word { cx % 0x40 }

  function UnpackCylinder(cx: Word): Word { cx / 0x100 + 0x100 * (cx % 0x100 / 0x40) }

  /** The stores of main: Heads from DH, Sects from CL & 3Fh, the two low bytes of Cyls from CH and
      CL >> 6; the upper bytes of Cyls start out zero.  CL is left shifted, all else kept. */
  method StoreGeometry(c: Cpu) returns (sects: Word, heads: Word, cyls: Dword)
    modifies c`ecx, c`cf, c`zf, c`sf, c`of
    ensures sects == UnpackSector(old(c.ecx) % 0x1_0000) && cyls == UnpackCylinder(old(c.ecx) % 0x1_0000)
    ensures heads == UnpackHead(old(c.edx))
    ensures c.ecx % 0x100 == old(c.ecx) % 0x100 / 0x40 && c.ecx / 0x100 == old(c.ecx) / 0x100
  {
    hide WithLow8;
    heads := c.edx / 0x100 % 0x100;
    sects := c.ecx % 0x100;
    sects := sects % 0x40;
    SecondByte(c.ecx);
    cyls := c.ecx / 0x100 % 0x100;
    c.ecx := WithLow8(c.ecx, c.ecx % 0x100 / 0x40);
    cyls := cyls + 0x100 * (c.ecx % 0x100);
    SectorField(old(c.ecx));
  }

  lemma SectorField(reg: Dword)
    ensures reg % 0x100 % 0x40 == reg % 0x1_0000 % 0x40
  {
    SecondByte(reg);
    var h, l := reg % 0x1_0000 / 0x100, reg % 0x100;
    DivisionUnique(h * 0x100 + l, 0x40, h * 4 + l / 0x40, l % 0x40);
  }

  /** The full packing keeps the low six bits of the sector, and the cylinder's low ten with the
      sector's bits 6 and 7 ORed into its bits 8 and 9; so for the sectors there are, up to 63, the
      cylinder modulo 1024. */
  lemma PackedCxUnpacks(cylinder: Word, sector: Byte)
    ensures UnpackSector(PackCx(cylinder, sector)) == sector % 0x40
    ensures UnpackCylinder(PackCx(cylinder, sector)) ==
            cylinder % 0x100 + 0x100 * Or(sector / 0x40, cylinder / 0x100 % 4)
    ensures sector < 0x40 ==> UnpackCylinder(PackCx(cylinder, sector)) == cylinder % 0x400
    ensures sector < 0x40 ==> (UnpackCylinder(PackCx(cylinder, sector)) == cylinder <==> cylinder < 0x400)
  {
    hide PackCx, UnpackSector, UnpackCylinder, Or;
    PackCxIs(cylinder, sector);
    PackedCl(cylinder, sector);
    FieldsOfCx(cylinder % 0x100, Or(sector / 0x40, cylinder / 0x100 % 4), sector % 0x40);
    TenBits(cylinder);
    OrZero(cylinder / 0x100 % 4);
  }

  lemma FieldsOfCx(ch: nat, high: nat, sector: nat)
    requires ch < 0x100 && high < 4 && sector < 0x40
    ensures var cx := ch * 0x100 + (high * 0x40 + sector);
            UnpackSector(cx) == sector && UnpackCylinder(cx) == ch + 0x100 * high
  {
    var cl := high * 0x40 + sector;
    DivisionUnique(ch * 0x100 + cl, 0x100, ch, cl);
    DivisionUnique(cl, 0x40, high, sector);
    DivisionUnique(ch * 0x100 + cl, 0x40, ch * 4 + high, sector);
  }

  lemma TenBits(cylinder: Word)
    ensures cylinder % 0x100 + 0x100 * (cylinder / 0x100 % 4) == cylinder % 0x400
  {
  }

  lemma PackedCl(cylinder: Word, sector: Byte)
    ensures Or(sector / 0x40, cylinder / 0x100 % 4) < 4
    ensures Or(sector, cylinder / 0x100 * 0x40 % 0x100) ==
            Or(sector / 0x40, cylinder / 0x100 % 4) * 0x40 + sector % 0x40
  {
    hide Or;
    var high, s := cylinder / 0x100 % 4, sector / 0x40;
    HighInByte(cylinder / 0x100);
    assert Pow2(6) == 0x40 && Pow2(2) == 4;
    OrSplit(6, s, sector % 0x40, high, 0);
    OrSplit(2, 0, s, 0, high);
    OrZero(sector % 0x40);
    OrZero(0);
  }

  lemma HighInByte(x: Byte)
    ensures x * 0x40 % 0x100 == x % 4 * 0x40
  {
  }

  lemma OrZero(x: nat)
    ensures Or(x, 0) == x && Or(0, x) == x
  {
  }

  /** The short packing of the first two reads loses everything above eight bits. */
  lemma ShortPackingRightExactlyWhen(cylinder: Word, sector: Byte)
    ensures UnpackSector(PackCxShort(cylinder, sector)) == sector % 0x40
    ensures UnpackCylinder(PackCxShort(cylinder, sector)) == cylinder % 0x100 + 0x100 * (sector / 0x40)
    ensures sector < 0x40 ==> (UnpackCylinder(PackCxShort(cylinder, sector)) == cylinder <==> cylinder < 0x100)
  {
    hide UnpackSector, UnpackCylinder;
    FieldsOfCx(cylinder % 0x100, sector / 0x40, sector % 0x40);
  }

  // ----- from the address to the sector the BIOS reads -----

  /** LBACHS, the packing and the BIOS's unpacking in a row: the place read for an address, with the
      full packing or the short one. */
  function ReadPlace(lba: Dword, spt: Word, heads: Word, full: bool): Chs
    requires Shape(spt, heads)
  {
    RegistersAreWords(lba, spt, heads);
    var r := Registers(lba, spt, heads);
    var cx := if full then PackCx(r.cylinder, r.sector % 0x100) else PackCxShort(r.cylinder, r.sector % 0x100);
    Chs(UnpackCylinder(cx), UnpackHead(PackDx(0, r.head % 0x100)), UnpackSector(cx))
  }

  lemma RegistersAreWords(lba: Dword, spt: Word, heads: Word)
    requires Shape(spt, heads)
    ensures var r := Registers(lba, spt, heads);
            0 <= r.cylinder < 0x1_0000 && 0 <= r.head < heads && 0 <= r.sector < 0x1_0000
  {
    hide Quotient, Remainder;
  }

  /** On a disk of up to 63 sectors a track and 256 heads the sector read is the one at the address
      exactly when the address is below 65536 tracks and its cylinder below 1024, or below 256 with the
      short packing. */
  lemma BootReadRightExactlyWhen(lba: Dword, spt: Word, heads: Word, full: bool)
    requires Shape(spt, heads) && spt < 0x40 && heads <= 0x100
    ensures ReadPlace(lba, spt, heads, full) == LbaToChs(lba, spt, heads) <==>
            lba < 0x1_0000 * spt && LbaToChs(lba, spt, heads).cylinder < if full then 0x400 else 0x100
  {
    hide Registers, ReadPlace, LbaToChs;
    var r := Registers(lba, spt, heads);
    ReadOfRegisters(lba, spt, heads, full);
    LbaChsRightExactlyWhen(lba, spt, heads);
    if lba >= 0x1_0000 * spt {
      LateCylinder(lba, spt, heads);
    }
  }

  /** On such a disk the BIOS reads where the registers say, but for the cylinder bits lost. */
  lemma ReadOfRegisters(lba: Dword, spt: Word, heads: Word, full: bool)
    requires Shape(spt, heads) && spt < 0x40 && heads <= 0x100
    ensures var r, p := Registers(lba, spt, heads), ReadPlace(lba, spt, heads, full);
            && p.head == r.head && p.sector == r.sector && p.cylinder <= r.cylinder
            && (p == r <==> r.cylinder < if full then 0x400 else 0x100)
  {
    hide Registers, PackCx, PackCxShort, UnpackCylinder, UnpackSector, UnpackHead, PackDx, Or;
    RegistersAreWords(lba, spt, heads);
    var r := Registers(lba, spt, heads);
    HeadRoundTrip(0, r.head % 0x100);
    SectorFits(lba, spt, heads);
    if full {
      PackedCxUnpacks(r.cylinder, r.sector);
    } else {
      ShortPackingRightExactlyWhen(r.cylinder, r.sector);
    }
  }

  lemma SectorFits(lba: Dword, spt: Word, heads: Word)
    requires Shape(spt, heads) && spt < 0x40
    ensures var r := Registers(lba, spt, heads); r.sector < 0x40
  {
    hide Quotient, Remainder;
  }

  /** Past 65536 tracks the cylinder computed is too small. */
  lemma LateCylinder(lba: Dword, spt: Word, heads: Word)
    requires Shape(spt, heads) && lba >= 0x1_0000 * spt
    ensures Registers(lba, spt, heads).cylinder < LbaToChs(lba, spt, heads).cylinder
  {
    var track := lba / spt;
    TrackBound(lba, spt);
    NonNegativeQuotient(lba, spt);
    NonNegativeQuotient(track, heads);
    NonNegativeQuotient(track % 0x1_0000, heads);
    var q, q' := track / heads, track % 0x1_0000 / heads;
    assert track - track % 0x1_0000 >= 0x1_0000;
    if q' >= q {
      ProductGrows(q, q', heads);
    }
  }

  lemma ProductGrows(q: int, q': int, d: nat)
    requires q <= q'
    ensures q * d <= q' * d
  {
    assert (q' - q) * d >= 0;
    assert (q' - q) * d == q' * d - q * d;
  }
}
