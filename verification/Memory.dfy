/** Physical memory: 4 GiB of bytes, read and written little-endian in byte, word and
    doubleword units.  Addresses wrap at 4 GiB, as the 32-bit effective addresses of the
    visor's FS-relative moves do. */
module Memory {

  const MEM_SIZE: int := 0x1_0000_0000

  type Byte = x: int | 0 <= x < 0x100
  type Word = x: int | 0 <= x < 0x1_0000
  type Dword = x: int | 0 <= x < 0x1_0000_0000
  type Mem = m: seq<Byte> | |m| == 0x1_0000_0000 ghost witness seq(0x1_0000_0000, i => 0)

  /** 32-bit addition and subtraction of addresses. */
  function Add(a: Dword, k: Dword): Dword {
    if a + k < MEM_SIZE then a + k else a + k - MEM_SIZE
  }

  function Sub(a: Dword, k: Dword): Dword {
    if k <= a then a - k else a - k + MEM_SIZE
  }

  /** 16-bit addition and subtraction. */
  function AddW(a: Word, k: Word): Word {
    var x: int := a + k;
    if x < 0x1_0000 then x else x - 0x1_0000
  }

  function SubW(a: Word, k: Word): Word {
    var x: int := a - k;
    if 0 <= x then x else x + 0x1_0000
  }

  function ReadB(m: Mem, a: Dword): Byte {
    m[a]
  }

  function ReadW(m: Mem, a: Dword): Word {
    var b0: int, b1: int := m[a], m[Add(a, 1)];
    b0 + 0x100 * b1
  }

  function ReadD(m: Mem, a: Dword): Dword {
    var b0: int, b1: int, b2: int, b3: int := m[a], m[Add(a, 1)], m[Add(a, 2)], m[Add(a, 3)];
    b0 + 0x100 * b1 + 0x1_0000 * b2 + 0x100_0000 * b3
  }

  function WriteB(m: Mem, a: Dword, v: Byte): Mem {
    m[a := v]
  }

  function WriteW(m: Mem, a: Dword, v: Word): Mem {
    m[a := v % 0x100][Add(a, 1) := v / 0x100]
  }

  function WriteD(m: Mem, a: Dword, v: Dword): Mem {
    m[a := v % 0x100][Add(a, 1) := v / 0x100 % 0x100][Add(a, 2) := v / 0x1_0000 % 0x100][Add(a, 3) := v / 0x100_0000]
  }

  lemma ReadBackW(m: Mem, a: Dword, v: Word)
    ensures ReadW(WriteW(m, a, v), a) == v
  {
  }

  lemma SplitDword(v: Dword)
    ensures v == v % 0x100 + 0x100 * (v / 0x100 % 0x100) + 0x1_0000 * (v / 0x1_0000 % 0x100)
                 + 0x100_0000 * (v / 0x100_0000)
  {
  }

  lemma ReadBackD(m: Mem, a: Dword, v: Dword)
    ensures ReadD(WriteD(m, a, v), a) == v
  {
    SplitDword(v);
  }

  /** Two memories hold the same bytes on [lo, hi). */
  ghost predicate Same(m: Mem, m': Mem, lo: int, hi: int) {
    forall a: Dword {:trigger m[a]} {:trigger m'[a]} :: lo <= a < hi ==> m'[a] == m[a]
  }

  /** Two memories hold the same bytes everywhere but on [lo, hi). */
  ghost predicate SameOutside(m: Mem, m': Mem, lo: int, hi: int) {
    forall a: Dword {:trigger m[a]} {:trigger m'[a]} :: a < lo || hi <= a ==> m'[a] == m[a]
  }

  lemma WriteWEffect(m: Mem, a: Dword, v: Word)
    requires a + 2 <= MEM_SIZE
    ensures ReadW(WriteW(m, a, v), a) == v
    ensures forall b: Dword {:trigger ReadW(WriteW(m, a, v), b)} ::
              b + 2 <= MEM_SIZE && (b + 2 <= a || a + 2 <= b) ==> ReadW(WriteW(m, a, v), b) == ReadW(m, b)
    ensures forall b: Dword {:trigger ReadD(WriteW(m, a, v), b)} ::
              b + 4 <= MEM_SIZE && (b + 4 <= a || a + 2 <= b) ==> ReadD(WriteW(m, a, v), b) == ReadD(m, b)
  {
  }

  lemma WriteDEffect(m: Mem, a: Dword, v: Dword)
    requires a + 4 <= MEM_SIZE
    ensures ReadD(WriteD(m, a, v), a) == v
    ensures forall b: Dword {:trigger ReadW(WriteD(m, a, v), b)} ::
              b + 2 <= MEM_SIZE && (b + 2 <= a || a + 4 <= b) ==> ReadW(WriteD(m, a, v), b) == ReadW(m, b)
    ensures forall b: Dword {:trigger ReadD(WriteD(m, a, v), b)} ::
              b + 4 <= MEM_SIZE && (b + 4 <= a || a + 4 <= b) ==> ReadD(WriteD(m, a, v), b) == ReadD(m, b)
  {
    SplitDword(v);
  }

  lemma DwordHalves(m: Mem, a: Dword)
    requires a + 4 <= MEM_SIZE
    ensures ReadD(m, a) == ReadW(m, a) + 0x1_0000 * ReadW(m, a + 2)
  {
  }
}
