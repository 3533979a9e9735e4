/** The compiler's 32-bit helpers of math.c: a long lives in BX:AX, its operand in memory at
    SS:[DI] or its count in DI. */
module LongMath {
  import opened Memory
  import opened Bits

  class Cpu {
    var eax: Dword
    var ebx: Dword
    var ecx: Dword
    var edx: Dword
    var cf: bool
    var zf: bool
    var sf: bool
    var of: bool

    ghost function Ax(): Word reads this { eax % 0x1_0000 }

    ghost function Bx(): Word reads this { ebx % 0x1_0000 }

    /** The long in BX:AX. */
    ghost function Pair(): Dword
      reads this
    {
      Long(Bx(), Ax())
    }

    /** and eax,0xFFFF / shl ebx,16 / or eax,ebx: the pair gathered in EAX. */
    method Gather()
      modifies this`eax, this`ebx
      ensures eax == old(Pair()) && ebx == old(Bx()) * 0x1_0000
    {
      eax := eax % 0x1_0000;
      ebx := ebx % 0x1_0000 * 0x1_0000;
      eax := eax + ebx;
    }

    /** mov ebx,eax / shr ebx,16: the pair spread out again. */
    method Scatter()
      modifies this`ebx
      ensures ebx == eax / 0x1_0000 && Pair() == eax
    {
      ebx := eax / 0x1_0000;
    }
  }

  function Long(high: Word, low: Word): Dword { high * 0x1_0000 + low }

  /** A 16-bit result in the low half of a 32-bit register. */
  function WithLow(reg: Dword, w: Word): (r: Dword)
    ensures r % 0x1_0000 == w && r / 0x1_0000 == reg / 0x1_0000
  {
    reg - reg % 0x1_0000 + w
  }

  function Signed(x: Dword): int { if x < 0x8000_0000 then x else x - MEM_SIZE }

  /** add ax,[di] / adc bx,2[di]. */
  method Laddl(c: Cpu, low: Word, high: Word)
    modifies c`eax, c`ebx, c`cf, c`zf, c`sf, c`of
    ensures c.Pair() == (old(c.Pair()) + Long(high, low)) % MEM_SIZE
    ensures c.cf <==> old(c.Pair()) + Long(high, low) >= MEM_SIZE
    ensures c.eax / 0x1_0000 == old(c.eax) / 0x1_0000 && c.ebx / 0x1_0000 == old(c.ebx) / 0x1_0000
  {
    hide WithLow, Long;
    AddHalves(c.ebx % 0x1_0000, c.eax % 0x1_0000, high, low);
    var sum: int := c.eax % 0x1_0000 + low;
    c.cf := sum >= 0x1_0000;
    c.eax := WithLow(c.eax, sum % 0x1_0000);
    sum := c.ebx % 0x1_0000 + high + if c.cf then 1 else 0;
    c.cf := sum >= 0x1_0000;
    c.ebx := WithLow(c.ebx, sum % 0x1_0000);
  }

  /** Adding halves with the carry between them adds the longs; and so for the borrow. */
  lemma AddHalves(xh: Word, xl: Word, yh: Word, yl: Word)
    ensures var l: int := xl + yl; var h: int := xh + yh + if l >= 0x1_0000 then 1 else 0;
            && Long(h % 0x1_0000, l % 0x1_0000) == (Long(xh, xl) + Long(yh, yl)) % MEM_SIZE
            && (h >= 0x1_0000 <==> Long(xh, xl) + Long(yh, yl) >= MEM_SIZE)
  {
  }

  lemma SubHalves(xh: Word, xl: Word, yh: Word, yl: Word)
    ensures var l: int := xl - yl; var h: int := xh - yh - if l < 0 then 1 else 0;
            && Long(h % 0x1_0000, l % 0x1_0000) == (Long(xh, xl) - Long(yh, yl)) % MEM_SIZE
            && (h < 0 <==> Long(xh, xl) < Long(yh, yl))
  {
    var l: int := xl - yl;
    var h: int := xh - yh - if l < 0 then 1 else 0;
    assert l % 0x1_0000 == (if l < 0 then l + 0x1_0000 else l) && h % 0x1_0000 == (if h < 0 then h + 0x1_0000 else h);
  }

  /** sub ax,[di] / sbb bx,2[di]. */
  method Lsubl(c: Cpu, low: Word, high: Word)
    modifies c`eax, c`ebx, c`cf, c`zf, c`sf, c`of
    ensures c.Pair() == (old(c.Pair()) - Long(high, low)) % MEM_SIZE
    ensures c.cf <==> old(c.Pair()) < Long(high, low)
    ensures c.eax / 0x1_0000 == old(c.eax) / 0x1_0000 && c.ebx / 0x1_0000 == old(c.ebx) / 0x1_0000
  {
    hide WithLow, Long;
    SubHalves(c.ebx % 0x1_0000, c.eax % 0x1_0000, high, low);
    var diff: int := c.eax % 0x1_0000 - low;
    c.cf := diff < 0;
    c.eax := WithLow(c.eax, diff % 0x1_0000);
    diff := c.ebx % 0x1_0000 - high - if c.cf then 1 else 0;
    c.cf := diff < 0;
    c.ebx := WithLow(c.ebx, diff % 0x1_0000);
  }

  /** and ax,[di] / and bx,2[di]. */
  method Landl(c: Cpu, low: Word, high: Word)
    modifies c`eax, c`ebx, c`cf, c`zf, c`sf, c`of
    ensures c.Pair() == And(old(c.Pair()), Long(high, low))
    ensures c.eax / 0x1_0000 == old(c.eax) / 0x1_0000 && c.ebx / 0x1_0000 == old(c.ebx) / 0x1_0000
  {
    hide And, WithLow;
    WordParts(c.ebx % 0x1_0000, c.eax % 0x1_0000, high, low);
    c.eax := WithLow(c.eax, And(c.eax % 0x1_0000, low));
    c.ebx := WithLow(c.ebx, And(c.ebx % 0x1_0000, high));
  }

  /** or ax,[di] / or bx,2[di]. */
  method Lorl(c: Cpu, low: Word, high: Word)
    modifies c`eax, c`ebx, c`cf, c`zf, c`sf, c`of
    ensures c.Pair() == Or(old(c.Pair()), Long(high, low))
    ensures c.eax / 0x1_0000 == old(c.eax) / 0x1_0000 && c.ebx / 0x1_0000 == old(c.ebx) / 0x1_0000
  {
    hide Or, WithLow;
    WordParts(c.ebx % 0x1_0000, c.eax % 0x1_0000, high, low);
    c.eax := WithLow(c.eax, Or(c.eax % 0x1_0000, low));
    c.ebx := WithLow(c.ebx, Or(c.ebx % 0x1_0000, high));
  }

  lemma Pow16()
    ensures Pow2(16) == 0x1_0000
  {
    assert Pow2(8) == 0x100;
    PowSplit(8, 8);
  }

  lemma WordParts(xh: Word, xl: Word, yh: Word, yl: Word)
    ensures And(xl, yl) < 0x1_0000 && And(xh, yh) < 0x1_0000 && Or(xl, yl) < 0x1_0000 && Or(xh, yh) < 0x1_0000
    ensures And(Long(xh, xl), Long(yh, yl)) == And(xh, yh) * 0x1_0000 + And(xl, yl)
    ensures Or(Long(xh, xl), Long(yh, yl)) == Or(xh, yh) * 0x1_0000 + Or(xl, yl)
  {
    hide And, Or;
    Pow16();
    AndSplit(16, xh, xl, yh, yl);
    OrSplit(16, xh, xl, yh, yl);
    AndSplit(16, 0, xh, 0, yh);
    OrSplit(16, 0, xh, 0, yh);
  }

  lemma SpreadPair(high: Word, low: Word)
    ensures Long(high, low) % 0x1_0000 == low && high * 0x1_0000 / 0x1_0000 % 0x1_0000 == high
  {
  }

  /** SF differs from OF after a subtraction exactly when the first operand is less, signed. */
  lemma CompareFlags(x: Dword, y: Dword)
    ensures var d: int := x - y; var sf := d % MEM_SIZE >= 0x8000_0000;
            var of := (x >= 0x8000_0000) != (y >= 0x8000_0000) && sf != (x >= 0x8000_0000);
            && (d % MEM_SIZE == 0 <==> x == y)
            && (sf != of <==> Signed(x) < Signed(y))
  {
    var d: int := x - y;
    assert d % MEM_SIZE == if d < 0 then d + MEM_SIZE else d;
  }

  /** cmp: the flags order the two longs, unsigned through CF and signed through SF and OF. */
  method Lcmpl(c: Cpu, low: Word, high: Word)
    modifies c`eax, c`ebx, c`cf, c`zf, c`sf, c`of
    ensures c.Pair() == old(c.Pair())
    ensures c.zf <==> old(c.Pair()) == Long(high, low)
    ensures c.cf <==> old(c.Pair()) < Long(high, low)
    ensures c.sf != c.of <==> Signed(old(c.Pair())) < Signed(Long(high, low))
    ensures c.eax == old(c.Pair()) && c.ebx == old(c.Bx())
  {
    hide Long;
    SpreadPair(c.Bx(), c.Ax());
    c.Gather();
    c.ebx := c.ebx / 0x1_0000;
    var m := Long(high, low);
    CompareFlags(c.eax, m);
    var diff: int := c.eax - m;
    c.cf := diff < 0;
    diff := diff % MEM_SIZE;
    c.zf := diff == 0;
    c.sf := diff >= 0x8000_0000;
    c.of := (c.eax >= 0x8000_0000) != (m >= 0x8000_0000) && c.sf != (c.eax >= 0x8000_0000);
  }

  /** test eax,eax. */
  method Ltstl(c: Cpu)
    modifies c`eax, c`ebx, c`cf, c`zf, c`sf, c`of
    ensures c.Pair() == old(c.Pair()) && (c.zf <==> old(c.Pair()) == 0)
    ensures c.sf <==> Signed(old(c.Pair())) < 0
    ensures c.eax == old(c.Pair()) && c.ebx == old(c.Bx())
  {
    hide Long;
    SpreadPair(c.Bx(), c.Ax());
    c.Gather();
    c.ebx := c.ebx / 0x1_0000;
    c.zf := c.eax == 0;
    c.sf := c.eax >= 0x8000_0000;
    c.cf, c.of := false, false;
  }

  /** mul: the low 32 bits of the product in BX:AX, the high ones in EDX. */
  method Lmull(c: Cpu, low: Word, high: Word)
    modifies c`eax, c`ebx, c`edx, c`cf, c`zf, c`sf, c`of
    ensures c.Pair() == old(c.Pair()) * Long(high, low) % MEM_SIZE
    ensures c.edx * MEM_SIZE + c.Pair() == old(c.Pair()) * Long(high, low)
    ensures c.eax == c.Pair() && c.ebx == c.Bx()
  {
    c.Gather();
    var product := c.eax * Long(high, low);
    ProductFits(c.eax, Long(high, low));
    c.edx := product / MEM_SIZE;
    c.eax := product % MEM_SIZE;
    c.Scatter();
  }

  lemma ProductFits(x: Dword, y: Dword)
    ensures 0 <= x * y / MEM_SIZE < MEM_SIZE
  {
    var xi: int, yi: int := x, y;
    assert xi * yi <= xi * MEM_SIZE;
  }

  /** div: quotient in BX:AX and remainder in EDX; the divide fault exactly for divisor zero. */
  method Ldivul(c: Cpu, low: Word, high: Word) returns (fault: bool)
    modifies c`eax, c`ebx, c`edx, c`cf, c`zf, c`sf, c`of
    ensures fault <==> Long(high, low) == 0
    ensures !fault ==> c.Pair() == old(c.Pair()) / Long(high, low) && c.edx == old(c.Pair()) % Long(high, low)
    ensures !fault ==> c.eax == c.Pair() && c.ebx == c.Bx()
  {
    hide WithLow;
    c.Gather();
    c.edx := 0;
    c.ebx := WithLow(c.ebx, high);
    c.ebx := c.ebx % 0x1_0000 * 0x1_0000;
    c.ebx := WithLow(c.ebx, low);
    assert c.ebx == Long(high, low);
    fault := c.ebx == 0;
    if !fault {
      var dividend := c.eax;
      QuotientFits(dividend, c.ebx);
      c.eax := dividend / c.ebx;
      c.edx := dividend % c.ebx;
      c.Scatter();
    }
  }

  lemma NonNegativeQuotient(x: nat, d: int)
    requires d > 0
    ensures 0 <= x / d && 0 <= x % d < d && x == x / d * d + x % d
  {
  }

  lemma QuotientFits(x: nat, d: nat)
    requires d > 0
    ensures 0 <= x / d <= x && 0 <= x % d < d
  {
    NonNegativeQuotient(x, d);
    QuotientOfProduct(x, d, x / d, x % d);
  }

  lemma QuotientOfProduct(x: nat, d: nat, q: nat, r: nat)
    requires d > 0 && x == q * d + r
    ensures q <= x
  {
    assert q * d == q * (d - 1) + q;
    assert q * (d - 1) >= 0;
  }

  // ----- the shift loops -----

  lemma AtLeastOne(k: int, d: nat)
    requires k >= 1
    ensures k * d >= d
  {
    assert k * d == (k - 1) * d + d;
    assert (k - 1) * d >= 0;
  }

  lemma UniqueQuotient(d: nat, q: int, r: int, q': int, r': int)
    requires q * d + r == q' * d + r' && 0 <= r < d && 0 <= r' < d
    ensures q == q' && r == r'
  {
    assert (q' - q) * d == q' * d - q * d;
    assert (q - q') * d == q * d - q' * d;
    if q < q' {
      AtLeastOne(q' - q, d);
    } else if q' < q {
      AtLeastOne(q - q', d);
    }
  }

  lemma DivisionUnique(x: nat, d: nat, q: nat, r: nat)
    requires d > 0 && x == q * d + r && r < d
    ensures x / d == q && x % d == r
  {
    UniqueQuotient(d, q, r, x / d, x % d);
  }

  lemma HalveAgain(x: nat, p: nat)
    requires p > 0
    ensures x / p / 2 == x / (2 * p)
  {
    var q, r := x / p, x % p;
    HalvedParts(x, p, q, r);
    DivisionUnique(x, 2 * p, q / 2, q % 2 * p + r);
  }

  lemma HalvedParts(x: nat, p: nat, q: nat, r: nat)
    requires x == q * p + r && r < p
    ensures x == q / 2 * (2 * p) + (q % 2 * p + r) && q % 2 * p + r < 2 * p
  {
    var h, b := q / 2, q % 2;
    assert q * p == (2 * h + b) * p == h * (2 * p) + b * p;
    if b == 0 {
      assert b * p == 0;
    } else {
      assert b * p == p;
    }
  }

  lemma DoubleAgain(x: nat, p: nat)
    ensures x * p % MEM_SIZE * 2 % MEM_SIZE == x * (2 * p) % MEM_SIZE
  {
    var y := x * p;
    assert x * (2 * p) == 2 * y;
  }

  /** x shifted k times, in either direction. */
  ghost function Right(x: Dword, k: nat): int { x / Pow2(k) }

  ghost function Left(x: Dword, k: nat): int { x * Pow2(k) % MEM_SIZE }

  lemma ShiftIs(x: Dword, k: nat)
    ensures Right(x, k) == x / Pow2(k) && Left(x, k) == x * Pow2(k) % MEM_SIZE
  {
  }

  lemma ShiftOnce(x: Dword, k: nat)
    ensures Right(x, k + 1) == Right(x, k) / 2 && Left(x, k + 1) == Left(x, k) * 2 % MEM_SIZE
    ensures Right(x, 0) == Left(x, 0) == x
  {
    hide Pow2;
    PowZero();
    PowStep(k);
    HalveAgain(x, Pow2(k));
    DoubleAgain(x, Pow2(k));
  }

  /** Logical shift right: division by two to the count in DI, for every 16-bit count. */
  method Lsrul(c: Cpu, di: Word)
    modifies c`eax, c`ebx, c`ecx, c`cf, c`zf, c`sf, c`of
    ensures c.Pair() == old(c.Pair()) / Pow2(di)
    ensures di == 0 ==> c.eax == old(c.eax) && c.ebx == old(c.ebx)
    ensures di > 0 ==> c.eax == c.Pair() && c.ebx == c.Bx()
    ensures c.ecx % 0x1_0000 == 0 && c.ecx / 0x1_0000 == old(c.ecx) / 0x1_0000
  {
    hide Right, Left, WithLow, Pow2;
    ghost var x := c.Pair();
    var cx: Word := di;
    ShiftOnce(x, 0);
    ShiftIs(x, di);
    if cx != 0 {
      c.Gather();
      while cx != 0
        modifies c`eax
        invariant cx <= di && c.eax == Right(x, di - cx)
      {
        ShiftOnce(x, di - cx);
        c.eax := c.eax / 2;
        cx := cx - 1;
      }
      c.Scatter();
    }
    c.ecx := WithLow(c.ecx, cx);
  }

  /** Shift left: multiplication by two to the count, on 32 bits. */
  method Lsll(c: Cpu, di: Word)
    modifies c`eax, c`ebx, c`ecx, c`cf, c`zf, c`sf, c`of
    ensures c.Pair() == old(c.Pair()) * Pow2(di) % MEM_SIZE
    ensures di == 0 ==> c.eax == old(c.eax) && c.ebx == old(c.ebx)
    ensures di > 0 ==> c.eax == c.Pair() && c.ebx == c.Bx()
    ensures c.ecx % 0x1_0000 == 0 && c.ecx / 0x1_0000 == old(c.ecx) / 0x1_0000
  {
    hide Right, Left, WithLow, Pow2;
    ghost var x := c.Pair();
    var cx: Word := di;
    ShiftOnce(x, 0);
    ShiftIs(x, di);
    if cx != 0 {
      c.Gather();
      while cx != 0
        modifies c`eax
        invariant cx <= di && c.eax == Left(x, di - cx)
      {
        ShiftOnce(x, di - cx);
        c.eax := c.eax * 2 % MEM_SIZE;
        cx := cx - 1;
      }
      c.Scatter();
    }
    c.ecx := WithLow(c.ecx, cx);
  }

  lemma PowZero()
    ensures Pow2(0) == 1
  {
  }

  lemma PowStep(k: nat)
    ensures Pow2(k + 1) == 2 * Pow2(k)
  {
  }

  /** Counts of 32 and more clear the long, in either direction. */
  lemma LongShiftsAreZero(x: Dword, di: Word)
    requires di >= 32
    ensures x / Pow2(di) == 0 && x * Pow2(di) % MEM_SIZE == 0
  {
    hide Pow2;
    Pow32();
    PowSplit(32, di - 32);
    MultipleOf32(x, Pow2(di - 32));
  }

  lemma Pow32()
    ensures Pow2(32) == MEM_SIZE
  {
    Pow16();
    PowSplit(16, 16);
  }

  lemma MultipleOf32(x: Dword, p: nat)
    requires p > 0
    ensures x / (MEM_SIZE * p) == 0 && x * (MEM_SIZE * p) % MEM_SIZE == 0
  {
    var xi: int := x;
    assert xi * (MEM_SIZE * p) == MEM_SIZE * (xi * p);
    DivisionUnique(x, MEM_SIZE * p, 0, x);
  }

  lemma {:induction false} PowSplit(a: nat, b: nat)
    ensures Pow2(a + b) == Pow2(a) * Pow2(b)
    decreases a
  {
    hide Pow2;
    if a > 0 {
      PowSplit(a - 1, b);
      PowStep(a - 1);
      PowStep(a - 1 + b);
      Twice(Pow2(a - 1), Pow2(b));
    } else {
      PowZero();
    }
  }

  lemma Twice(x: nat, y: nat)
    ensures 2 * (x * y) == (2 * x) * y
  {
  }
}
