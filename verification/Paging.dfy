/** Page tables as data in memory: the architectural non-PAE two-level walk (AMD64 APM
    Volume 2, section 5.2.2), its nested form (section 15.25), and the one-level lookup
    the visor uses in their place. */
module Paging {
  import opened Memory

  const GUEST_CR3_VALUE: Dword := 0x366000
  const NESTED_DIR_FINAL: Dword := 0x621000
  const VMCB_FINAL: Dword := 0x600000
  const SAVE_STATE_CR3: Dword := 0x550

  /** addr & 0xFFFFF000 and addr & 0x00000FFF. */
  function PageOf(a: Dword): Dword {
    a - a % 0x1000
  }

  function Offset(a: Dword): Dword {
    a % 0x1000
  }

  /** (entry & 0xFFFFF000) | (a & 0x00000FFF): the entry's frame with a's page offset. */
  function Join(entry: Dword, a: Dword): Dword {
    PageOf(entry) + Offset(a)
  }

  lemma JoinParts(entry: Dword, a: Dword)
    ensures PageOf(Join(entry, a)) == PageOf(entry) && Offset(Join(entry, a)) == Offset(a)
  {
  }

  predicate Present(entry: Dword) {
    entry % 2 == 1
  }

  // ----- the architecture -----

  datatype Translation = Fault | Phys(addr: Dword)

  function PdeAddress(dir: Dword, a: Dword): Dword {
    PageOf(dir) + 4 * (a / 0x40_0000)
  }

  function PteAddress(pde: Dword, a: Dword): Dword {
    PageOf(pde) + 4 * (a / 0x1000 % 0x400)
  }

  /** One-dimensional walk of the tables rooted at dir. */
  function Walk(m: Mem, dir: Dword, a: Dword): Translation {
    var pde := ReadD(m, PdeAddress(dir, a));
    if !Present(pde) then Fault else
    var pte := ReadD(m, PteAddress(pde, a));
    if !Present(pte) then Fault else Phys(Join(pte, a))
  }

  /** Reads a doubleword at a guest-physical address, through the nested tables. */
  function NestedRead(m: Mem, nested: Dword, a: Dword): Translation {
    match Walk(m, nested, a)
    case Fault => Fault
    case Phys(p) => Phys(ReadD(m, p))
  }

  /** Two-dimensional walk: every guest table access and the final guest-physical address
      pass through the nested tables. */
  function NestedWalk(m: Mem, nested: Dword, dir: Dword, a: Dword): Translation {
    match NestedRead(m, nested, PdeAddress(dir, a))
    case Fault => Fault
    case Phys(pde) =>
      if !Present(pde) then Fault else
      match NestedRead(m, nested, PteAddress(pde, a))
      case Fault => Fault
      case Phys(pte) =>
        if !Present(pte) then Fault else Walk(m, nested, Join(pte, a))
  }

  // ----- the visor's lookup -----

  /** Address of the entry the flat lookup reads: the tables are taken to follow their
      directory without a gap. */
  function FlatEntryAddress(dir: Dword, a: Dword): Dword {
    Add(Add(dir, 0x1000), PageOf(a) / 0x400)
  }

  function FlatLookup(m: Mem, dir: Dword, a: Dword): Dword {
    Join(ReadD(m, FlatEntryAddress(dir, a)), a)
  }

  function GuestCr3(m: Mem): Dword {
    ReadD(m, VMCB_FINAL + SAVE_STATE_CR3)
  }

  function GetGuestPhysicalAddress(m: Mem, a: Dword): Dword {
    FlatLookup(m, GuestCr3(m), a)
  }

  function TranslateGuestPhysicalAddress(m: Mem, a: Dword): Dword {
    FlatLookup(m, NESTED_DIR_FINAL, GetGuestPhysicalAddress(m, a))
  }

  /** The physical address the memory accessors use: guest addresses are translated once,
      for the first byte only. */
  function Locate(m: Mem, a: Dword, guestMemory: bool): Dword {
    if guestMemory then TranslateGuestPhysicalAddress(m, a) else a
  }

  // ----- the flat lookup against the architecture -----

  /** dir holds a directory whose first n entries point at the n tables that follow it.
      The accessed and dirty bits, which the processor sets, are left free. */
  ghost predicate Contiguous(m: Mem, dir: Dword, n: nat) {
    && Offset(dir) == 0 && n <= 0x400 && dir + 0x1000 * (n + 1) <= MEM_SIZE
    && forall i: int :: 0 <= i < n ==> PointsAtTable(m, dir, i)
  }

  /** Entry i of the directory is present and points at the i-th page behind it. */
  ghost predicate PointsAtTable(m: Mem, dir: Dword, i: int) {
    0 <= i && dir + 4 * i < MEM_SIZE &&
    Present(ReadD(m, dir + 4 * i)) && PageOf(ReadD(m, dir + 4 * i)) == dir + 0x1000 * (i + 1)
  }

  lemma FlatEntryInTable(dir: Dword, n: nat, a: Dword)
    requires n <= 0x400 && dir + 0x1000 * (n + 1) <= MEM_SIZE
    requires a < n * 0x40_0000
    ensures FlatEntryAddress(dir, a) == dir + 0x1000 + 4 * (a / 0x1000)
    ensures 4 * (a / 0x1000) == 0x1000 * (a / 0x40_0000) + 4 * (a / 0x1000 % 0x400)
    ensures a / 0x40_0000 < n
    ensures FlatEntryAddress(dir, a) + 4 <= dir + 0x1000 * (n + 1)
  {
  }

  /** With contiguous tables, whatever they contain, the walk is the flat lookup wherever the
      page is present; the flat lookup itself does not look at the present bit. */
  lemma WalkIsFlat(m: Mem, dir: Dword, n: nat, a: Dword)
    requires Contiguous(m, dir, n) && a < n * 0x40_0000
    ensures Walk(m, dir, a) ==
            if Present(ReadD(m, FlatEntryAddress(dir, a))) then Phys(FlatLookup(m, dir, a)) else Fault
  {
    hide ReadD, Join;
    FlatEntryInTable(dir, n, a);
    assert PointsAtTable(m, dir, a / 0x40_0000);
  }

  ghost predicate NestedIdentityOn(m: Mem, nested: Dword, lo: int, hi: int) {
    forall p: Dword :: lo <= p < hi ==> Walk(m, nested, p) == Phys(p)
  }

  /** The flat lookup done twice refines the two-dimensional walk: for any number of tables and
      any contents, the walk gives the flat result exactly when both leaf entries are
      present, and faults otherwise. */
  lemma FlatRefinesNestedWalk(m: Mem, nested: Dword, nn: nat, dir: Dword, n: nat, a: Dword)
    requires Contiguous(m, dir, n) && Contiguous(m, nested, nn)
    requires NestedIdentityOn(m, nested, dir, dir + 0x1000 * (n + 1))
    requires a < n * 0x40_0000 && FlatLookup(m, dir, a) < nn * 0x40_0000
    ensures var g := FlatLookup(m, dir, a);
            NestedWalk(m, nested, dir, a) ==
            if Present(ReadD(m, FlatEntryAddress(dir, a))) && Present(ReadD(m, FlatEntryAddress(nested, g)))
            then Phys(FlatLookup(m, nested, g)) else Fault
  {
    hide ReadD, Join;
    FlatEntryInTable(dir, n, a);
    var i := a / 0x40_0000;
    assert PointsAtTable(m, dir, i);
    assert PdeAddress(dir, a) == dir + 4 * i;
    assert Walk(m, nested, dir + 4 * i) == Phys(dir + 4 * i);
    var pde := ReadD(m, dir + 4 * i);
    assert PteAddress(pde, a) == FlatEntryAddress(dir, a);
    WalkIsFlat(m, nested, nn, FlatLookup(m, dir, a));
  }

  /** The same about the visor's own function, on the VMCB's guest CR3 and the nested root. */
  lemma TranslateRefinesNestedWalk(m: Mem, nn: nat, n: nat, a: Dword)
    requires Contiguous(m, GuestCr3(m), n) && Contiguous(m, NESTED_DIR_FINAL, nn)
    requires NestedIdentityOn(m, NESTED_DIR_FINAL, GuestCr3(m), GuestCr3(m) + 0x1000 * (n + 1))
    requires a < n * 0x40_0000 && GetGuestPhysicalAddress(m, a) < nn * 0x40_0000
    ensures NestedWalk(m, NESTED_DIR_FINAL, GuestCr3(m), a) ==
            if Present(ReadD(m, FlatEntryAddress(GuestCr3(m), a)))
               && Present(ReadD(m, FlatEntryAddress(NESTED_DIR_FINAL, GetGuestPhysicalAddress(m, a))))
            then Phys(TranslateGuestPhysicalAddress(m, a)) else Fault
  {
    FlatRefinesNestedWalk(m, NESTED_DIR_FINAL, nn, GuestCr3(m), n, a);
  }

  // ----- identity tables -----

  /** The first n tables behind dir map every page to itself, as the flat lookup sees it. */
  ghost predicate IdentityFrames(m: Mem, dir: Dword, n: nat) {
    && dir + 0x1000 * (n + 1) <= MEM_SIZE
    && forall i: int :: 0 <= i < 0x400 * n ==> Frame(m, dir, i) == 0x1000 * i
  }

  ghost function Frame(m: Mem, dir: Dword, i: int): int {
    if 0 <= i && dir + 0x1000 + 4 * i < MEM_SIZE then PageOf(ReadD(m, dir + 0x1000 + 4 * i)) else -1
  }

  lemma IdentityLookup(m: Mem, dir: Dword, n: nat, a: Dword)
    requires n <= 0x400 && IdentityFrames(m, dir, n) && a < n * 0x40_0000
    ensures FlatLookup(m, dir, a) == a
  {
    FlatEntryInTable(dir, n, a);
    assert Frame(m, dir, a / 0x1000) == 0x1000 * (a / 0x1000);
  }

  /** Moving tables and re-pointing the directory keeps every translation, whatever the
      tables contain. */
  lemma RelocationKeepsWalk(m: Mem, dir: Dword, m': Mem, dir': Dword, n: nat, a: Dword)
    requires Contiguous(m, dir, n) && Contiguous(m', dir', n)
    requires SameTableBytes(m, dir, m', dir', n)
    requires a < n * 0x40_0000
    ensures Walk(m', dir', a) == Walk(m, dir, a)
  {
    hide ReadD, Walk, SameTableBytes, PointsAtTable;
    FlatEntryInTable(dir, n, a);
    FlatEntryInTable(dir', n, a);
    WalkIsFlat(m, dir, n, a);
    WalkIsFlat(m', dir', n, a);
    MovedEntry(m, dir, m', dir', n, 4 * (a / 0x1000));
  }

  lemma MovedEntry(m: Mem, dir: Dword, m': Mem, dir': Dword, n: nat, k: Dword)
    requires dir + 0x1000 * (n + 1) <= MEM_SIZE && dir' + 0x1000 * (n + 1) <= MEM_SIZE
    requires SameTableBytes(m, dir, m', dir', n) && k + 4 <= 0x1000 * n
    ensures ReadD(m', dir' + 0x1000 + k) == ReadD(m, dir + 0x1000 + k)
  {
    assert TableByte(m', dir', k) == TableByte(m, dir, k) && TableByte(m', dir', k + 1) == TableByte(m, dir, k + 1)
        && TableByte(m', dir', k + 2) == TableByte(m, dir, k + 2)
        && TableByte(m', dir', k + 3) == TableByte(m, dir, k + 3);
  }

  ghost predicate SameTableBytes(m: Mem, dir: Dword, m': Mem, dir': Dword, n: nat) {
    forall k: int {:trigger TableByte(m, dir, k)} {:trigger TableByte(m', dir', k)} ::
      0 <= k < 0x1000 * n ==> TableByte(m', dir', k) == TableByte(m, dir, k)
  }

  /** Byte k of the tables behind dir. */
  ghost function TableByte(m: Mem, dir: Dword, k: int): int {
    if 0 <= k && dir + 0x1000 + k < MEM_SIZE then m[dir + 0x1000 + k] else -1
  }
}
