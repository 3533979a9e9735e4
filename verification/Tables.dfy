/** Building the host, nested and guest page tables and moving them to their final place. */
module Tables {
  import opened Memory
  import opened Paging
  import opened Vmcb
  import opened MachineState
  import opened GuestMemory

  const HOST_MEMORY_SIZE: Dword := 0x100_0000
  const HOST_CR3_VALUE: Dword := 0x7_0000
  const HOST_CR3_FINAL: Dword := 0x61_1000
  const NESTED_DIR_START: Dword := 0x1_A000
  const VMCB_START: Dword := 0x2_0000

  // ----- tables as the building loops leave them -----

  /** The first k directory entries point at the tables behind the directory. */
  ghost predicate DirDone(m: Mem, dir: Dword, k: int) {
    forall i: int :: 0 <= i < k ==> DirEntry(m, dir, i)
  }

  ghost predicate DirEntry(m: Mem, dir: Dword, i: int) {
    0 <= i && dir + 4 * i < MEM_SIZE && ReadD(m, dir + 4 * i) == dir + 0x1000 * (i + 1) + 7
  }

  /** The first k table entries map pages to themselves. */
  ghost predicate TabDone(m: Mem, dir: Dword, k: int) {
    forall i: int :: 0 <= i < k ==> TabEntry(m, dir, i)
  }

  ghost predicate TabEntry(m: Mem, dir: Dword, i: int) {
    0 <= i && dir + 0x1000 + 4 * i < MEM_SIZE && ReadD(m, dir + 0x1000 + 4 * i) == 0x1000 * i + 7
  }

  /** Where the tables of an n-entry directory go. */
  ghost predicate Room(dir: Dword, n: nat) {
    Offset(dir) == 0 && 0 < n <= 0x400 && dir + 0x1000 * (n + 1) <= MEM_SIZE
  }

  /** a is a byte of the n directory entries or of the n tables behind them. */
  ghost predicate InTables(a: int, dir: Dword, n: nat) {
    dir <= a < dir + 4 * n || dir + 0x1000 <= a < dir + 0x1000 * (n + 1)
  }

  /** Only the n directory entries and the n tables differ. */
  ghost predicate OnlyTables(m: Mem, m': Mem, dir: Dword, n: nat) {
    forall a: Dword {:trigger m[a]} {:trigger m'[a]} :: !InTables(a, dir, n) ==> m'[a] == m[a]
  }

  lemma DirStep(m0: Mem, m: Mem, dir: Dword, n: nat, k: nat)
    requires Room(dir, n) && k < n
    requires DirDone(m, dir, k) && TabDone(m, dir, 0x400 * k) && OnlyTables(m0, m, dir, n)
    ensures var m' := WriteD(m, dir + 4 * k, dir + 0x1000 * (k + 1) + 7);
            DirDone(m', dir, k + 1) && TabDone(m', dir, 0x400 * k) && OnlyTables(m0, m', dir, n)
  {
    hide ReadD, WriteD, OnlyTables;
    var a: Dword, v: Dword := dir + 4 * k, dir + 0x1000 * (k + 1) + 7;
    OnlyTablesStep(m0, m, dir, n, a, v);
    WriteDEffect(m, a, v);
    var m' := WriteD(m, a, v);
    forall i: int | 0 <= i < k + 1 ensures DirEntry(m', dir, i) {
      assert i < k ==> DirEntry(m, dir, i);
    }
    forall i: int | 0 <= i < 0x400 * k ensures TabEntry(m', dir, i) {
      assert TabEntry(m, dir, i);
    }
  }

  lemma OnlyTablesStep(m0: Mem, m: Mem, dir: Dword, n: nat, a: Dword, v: Dword)
    requires Room(dir, n) && OnlyTables(m0, m, dir, n)
    requires dir <= a && (a + 4 <= dir + 4 * n || dir + 0x1000 <= a) && a + 4 <= dir + 0x1000 * (n + 1)
    ensures OnlyTables(m0, WriteD(m, a, v), dir, n)
  {
  }

  lemma TabStep(m0: Mem, m: Mem, dir: Dword, n: nat, k: nat, j: nat)
    requires Room(dir, n) && k <= n && j < 0x400 * n
    requires DirDone(m, dir, k) && TabDone(m, dir, j) && OnlyTables(m0, m, dir, n)
    ensures var m' := WriteD(m, dir + 0x1000 + 4 * j, 0x1000 * j + 7);
            DirDone(m', dir, k) && TabDone(m', dir, j + 1) && OnlyTables(m0, m', dir, n)
  {
    hide ReadD, WriteD, OnlyTables;
    var a: Dword, v: Dword := dir + 0x1000 + 4 * j, 0x1000 * j + 7;
    OnlyTablesStep(m0, m, dir, n, a, v);
    WriteDEffect(m, a, v);
    var m' := WriteD(m, a, v);
    forall i: int | 0 <= i < k ensures DirEntry(m', dir, i) {
      assert DirEntry(m, dir, i);
    }
    forall i: int | 0 <= i < j + 1 ensures TabEntry(m', dir, i) {
      assert i < j ==> TabEntry(m, dir, i);
    }
  }

  /** The nested loops shared by SetupPaging (twice) and SetupGuestPages: for each directory
      entry, the entry and then the 1024 entries of its table, through a moving pointer. */
  method FillTables(vm: Machine, dir: Dword, n: nat)
    requires vm.Valid() && Room(dir, n)
    modifies vm.mem
    ensures DirDone(vm.mem[..], dir, n) && TabDone(vm.mem[..], dir, 0x400 * n)
    ensures OnlyTables(old(vm.mem[..]), vm.mem[..], dir, n)
  {
    hide DirDone, TabDone, OnlyTables, WriteD;
    ghost var m0 := vm.mem[..];
    var table := dir + 0x1000;
    assert DirDone(m0, dir, 0) && TabDone(m0, dir, 0) && OnlyTables(m0, m0, dir, n) by { NothingDone(m0, dir, n); }
    for cnt := 0 to n
      invariant table == dir + 0x1000 + 0x1000 * cnt
      invariant DirDone(vm.mem[..], dir, cnt) && TabDone(vm.mem[..], dir, 0x400 * cnt)
      invariant OnlyTables(m0, vm.mem[..], dir, n)
    {
      DirStep(m0, vm.mem[..], dir, n, cnt);
      vm.SetMemD(dir + 4 * cnt, dir + 0x1000 * (cnt + 1) + 7, false);
      for cnt2 := 0 to 0x400
        invariant DirDone(vm.mem[..], dir, cnt + 1) && TabDone(vm.mem[..], dir, 0x400 * cnt + cnt2)
        invariant OnlyTables(m0, vm.mem[..], dir, n)
      {
        TabStep(m0, vm.mem[..], dir, n, cnt + 1, 0x400 * cnt + cnt2);
        vm.SetMemD(table + 4 * cnt2, 0x40_0000 * cnt + 0x1000 * cnt2 + 7, false);
      }
      table := table + 0x1000;
    }
  }

  lemma NothingDone(m: Mem, dir: Dword, n: nat)
    ensures DirDone(m, dir, 0) && TabDone(m, dir, 0) && OnlyTables(m, m, dir, n)
  {
  }

  lemma DoneIsContiguous(m: Mem, dir: Dword, n: nat)
    requires Room(dir, n) && DirDone(m, dir, n)
    ensures Contiguous(m, dir, n)
  {
    hide ReadD;
    forall i: int | 0 <= i < n ensures PointsAtTable(m, dir, i) {
      assert DirEntry(m, dir, i);
    }
  }

  /** What the loops build maps every covered address to itself. */
  lemma DoneIsIdentity(m: Mem, dir: Dword, n: nat)
    requires Room(dir, n) && DirDone(m, dir, n) && TabDone(m, dir, 0x400 * n)
    ensures IdentityFrames(m, dir, n)
    ensures forall a: Dword {:trigger Walk(m, dir, a)} :: a < n * 0x40_0000 ==> Walk(m, dir, a) == Phys(a)
  {
    hide ReadD, Walk, DirDone, IdentityFrames;
    forall a: Dword | a < n * 0x40_0000 ensures Walk(m, dir, a) == Phys(a) {
      DoneWalk(m, dir, n, a);
    }
    DoneFrames(m, dir, n);
  }

  lemma DoneFrames(m: Mem, dir: Dword, n: nat)
    requires Room(dir, n) && TabDone(m, dir, 0x400 * n)
    ensures IdentityFrames(m, dir, n)
  {
    hide ReadD;
    forall i: int | 0 <= i < 0x400 * n ensures Frame(m, dir, i) == 0x1000 * i {
      assert TabEntry(m, dir, i);
    }
  }

  lemma DoneWalk(m: Mem, dir: Dword, n: nat, a: Dword)
    requires Room(dir, n) && DirDone(m, dir, n) && TabDone(m, dir, 0x400 * n) && a < n * 0x40_0000
    ensures Walk(m, dir, a) == Phys(a)
  {
    hide ReadD, Walk, DirDone, FlatEntryAddress, Contiguous;
    DoneIsContiguous(m, dir, n);
    WalkIsFlat(m, dir, n, a);
    FlatEntryInTable(dir, n, a);
    assert TabEntry(m, dir, a / 0x1000);
  }

  /** The nested and host directories and tables before the move. */
  ghost predicate PagingByte(a: int) {
    InTables(a, NESTED_DIR_START, 2) || InTables(a, HOST_CR3_VALUE, 5)
  }

  /** SetupPaging runs in real mode, through DS 7000h and 1000h; every offset it uses stays below
      64K, so that the physical addresses are the segment base plus the offset throughout. */
  method SetupPaging(vm: Machine)
    requires vm.Valid()
    modifies vm.mem
    ensures DirDone(vm.mem[..], HOST_CR3_VALUE, 5) && TabDone(vm.mem[..], HOST_CR3_VALUE, 0x400 * 5)
    ensures DirDone(vm.mem[..], NESTED_DIR_START, 2) && TabDone(vm.mem[..], NESTED_DIR_START, 0x400 * 2)
    ensures forall a: Dword {:trigger vm.mem[a]} :: !PagingByte(a) ==> vm.mem[a] == old(vm.mem[a])
  {
    hide ReadD;
    FillTables(vm, HOST_CR3_VALUE, HOST_MEMORY_SIZE / 0x40_0000 + 1);
    ghost var m1 := vm.mem[..];
    FillTables(vm, NESTED_DIR_START, GUEST_MEMORY_SIZE / 0x40_0000 + 1);
    DoneElsewhere(m1, vm.mem[..], HOST_CR3_VALUE, 5);
  }

  lemma DoneElsewhere(m: Mem, m': Mem, dir: Dword, n: nat)
    requires Room(dir, n) && DirDone(m, dir, n) && TabDone(m, dir, 0x400 * n)
    requires Same(m, m', dir, dir + 0x1000 * (n + 1))
    ensures DirDone(m', dir, n) && TabDone(m', dir, 0x400 * n)
  {
    forall i: int | 0 <= i < n ensures DirEntry(m', dir, i) {
      assert DirEntry(m, dir, i);
    }
    forall i: int | 0 <= i < 0x400 * n ensures TabEntry(m', dir, i) {
      assert TabEntry(m, dir, i);
    }
  }

  method SetupGuestPages(vm: Machine)
    requires vm.Valid()
    modifies vm.mem
    ensures DirDone(vm.mem[..], GUEST_CR3_VALUE, 2) && TabDone(vm.mem[..], GUEST_CR3_VALUE, 0x400 * 2)
    ensures OnlyTables(old(vm.mem[..]), vm.mem[..], GUEST_CR3_VALUE, 2)
  {
    FillTables(vm, GUEST_CR3_VALUE, GUEST_MEMORY_SIZE / 0x40_0000 + 1);
  }

  // ----- moving the tables -----

  /** rep movsb with the direction flag clear: byte by byte upwards. */
  function CopyForward(m: Mem, from: Dword, to: Dword, cnt: nat): Mem
    requires from + cnt <= MEM_SIZE && to + cnt <= MEM_SIZE
  {
    if cnt == 0 then m else
    var m' := CopyForward(m, from, to, cnt - 1);
    m'[to + cnt - 1 := m'[from + cnt - 1]]
  }

  /** m' is m with the block at from copied to to. */
  ghost predicate BlockCopied(m: Mem, m': Mem, from: Dword, to: Dword, cnt: nat) {
    forall a: Dword {:trigger m'[a]} ::
      m'[a] == if to <= a < to + cnt && from + (a - to) < MEM_SIZE then m[from + (a - to)] else m[a]
  }

  /** Copying upwards moves the block faithfully unless the destination starts inside it. */
  lemma {:induction false} CopyForwardIsBlockCopy(m: Mem, from: Dword, to: Dword, cnt: nat)
    requires from + cnt <= MEM_SIZE && to + cnt <= MEM_SIZE
    requires to <= from || from + cnt <= to
    ensures BlockCopied(m, CopyForward(m, from, to, cnt), from, to, cnt)
  {
    if cnt > 0 {
      CopyForwardIsBlockCopy(m, from, to, cnt - 1);
    }
  }

  method CopyData(vm: Machine, from: Dword, to: Dword, cnt: Dword)
    requires vm.Valid()
    requires from + cnt <= MEM_SIZE && to + cnt <= MEM_SIZE
    modifies vm.mem
    ensures vm.mem[..] == CopyForward(old(vm.mem[..]), from, to, cnt)
  {
    var ecx := 0;
    while ecx < cnt
      invariant 0 <= ecx <= cnt
      invariant vm.mem[..] == CopyForward(old(vm.mem[..]), from, to, ecx)
    {
      vm.mem[to + ecx] := vm.mem[from + ecx];
      ecx := ecx + 1;
    }
  }

  /** PDAddress[Entry] = (Page & 0xFFFFF000) | 7. */
  method UpdatePDEntry(vm: Machine, dir: Dword, entry: Word, page: Dword)
    requires vm.Valid()
    modifies vm.mem
    ensures vm.mem[..] == WriteD(old(vm.mem[..]), Add(dir, 4 * entry), PageOf(page) + 7)
  {
    vm.SetMemD(Add(dir, 4 * entry), PageOf(page) + 7, false);
  }

  // ----- descriptors -----

  const HOST_GDTR: Dword := 0x6F_F000
  const HOST_GDT_FINAL: Dword := 0x81_0000
  const HOST_IDT_FINAL: Dword := 0x72_0000
  const HOST_IDTR: Dword := HOST_IDT_FINAL + 0x900
  const HANDLERS: nat := 0x22
  const ACS_INT: Word := 0x8E

  /** Where MoveStuff stores the operands of LGDT and LIDT, packed structures of six bytes, and
      the interrupt gates. */
  ghost predicate DescriptorByte(a: int) {
    || HOST_GDTR <= a < HOST_GDTR + 6
    || HOST_IDT_FINAL <= a < HOST_IDT_FINAL + 8 * HANDLERS
    || HOST_IDTR <= a < HOST_IDTR + 6
  }

  /** Gate k: the handler's address in two halves around the selector and the access byte. */
  ghost predicate Gate(m: Mem, k: int, handler: Dword) {
    0 <= k < HANDLERS &&
    var item: Dword := HOST_IDT_FINAL + 8 * k;
    && ReadW(m, item) == handler % 0x1_0000 && ReadW(m, item + 2) == 0x50
    && ReadW(m, item + 4) == ACS_INT * 0x100 && ReadW(m, item + 6) == handler / 0x1_0000
  }

  ghost predicate Gates(m: Mem, handlers: seq<Dword>, n: int) {
    forall k: int :: 0 <= k < n && k < |handlers| ==> Gate(m, k, handlers[k])
  }

  ghost predicate Descriptors(m: Mem, handlers: seq<Dword>) {
    && Gates(m, handlers, HANDLERS)
    && ReadW(m, HOST_GDTR) == 11 * 8 - 1 && ReadD(m, HOST_GDTR + 2) == HOST_GDT_FINAL
    && ReadW(m, HOST_IDTR) == 128 * 8 - 1 && ReadD(m, HOST_IDTR + 2) == HOST_IDT_FINAL
  }

  lemma DescriptorsKept(m: Mem, m': Mem, handlers: seq<Dword>)
    requires Descriptors(m, handlers) && forall a: Dword :: DescriptorByte(a) ==> m'[a] == m[a]
    ensures Descriptors(m', handlers)
  {
    forall k: int | 0 <= k < HANDLERS && k < |handlers| ensures Gate(m', k, handlers[k]) {
      assert Gate(m, k, handlers[k]);
    }
  }

  method SetupIdtEntry(vm: Machine, k: nat, handler: Dword)
    requires vm.Valid() && k < HANDLERS
    modifies vm.mem
    ensures Gate(vm.mem[..], k, handler)
    ensures SameOutside(old(vm.mem[..]), vm.mem[..], HOST_IDT_FINAL + 8 * k, HOST_IDT_FINAL + 8 * k + 8)
  {
    hide WriteW, ReadW, SameOutside;
    ghost var m0 := vm.mem[..];
    var item: Dword := HOST_IDT_FINAL + 8 * k;
    vm.SetMemW(item, handler % 0x1_0000, false);
    vm.SetMemW(item + 2, 0x50, false);
    vm.SetMemW(item + 4, ACS_INT * 0x100, false);
    vm.SetMemW(item + 6, handler / 0x1_0000, false);
    GateStored(m0, k, handler);
  }

  lemma GateStored(m: Mem, k: nat, handler: Dword)
    requires k < HANDLERS
    ensures var item: Dword := HOST_IDT_FINAL + 8 * k;
            var m1 := WriteW(WriteW(m, item, handler % 0x1_0000), item + 2, 0x50);
            var m2 := WriteW(WriteW(m1, item + 4, ACS_INT * 0x100), item + 6, handler / 0x1_0000);
            Gate(m2, k, handler) && SameOutside(m, m2, item, item + 8)
  {
    var item: Dword := HOST_IDT_FINAL + 8 * k;
    var m1 := WriteW(m, item, handler % 0x1_0000);
    var m2 := WriteW(m1, item + 2, 0x50);
    var m3 := WriteW(m2, item + 4, ACS_INT * 0x100);
    assert SameOutside(m, WriteW(m3, item + 6, handler / 0x1_0000), item, item + 8) by { hide ReadW; }
    hide ReadW, ReadD, WriteW, SameOutside;
    WriteWEffect(m, item, handler % 0x1_0000);
    WriteWEffect(m1, item + 2, 0x50);
    WriteWEffect(m2, item + 4, ACS_INT * 0x100);
    WriteWEffect(m3, item + 6, handler / 0x1_0000);
  }

  lemma GateKept(m: Mem, m': Mem, k: int, handler: Dword, j: nat)
    requires Gate(m, k, handler) && k != j
    requires SameOutside(m, m', HOST_IDT_FINAL + 8 * j, HOST_IDT_FINAL + 8 * j + 8)
    ensures Gate(m', k, handler)
  {
  }

  /** The 34 calls of SetupHostIDT, one a wrapper. */
  method SetupHostIdt(vm: Machine, handlers: seq<Dword>)
    requires vm.Valid() && |handlers| == HANDLERS
    modifies vm.mem
    ensures Gates(vm.mem[..], handlers, HANDLERS)
    ensures SameOutside(old(vm.mem[..]), vm.mem[..], HOST_IDT_FINAL, HOST_IDT_FINAL + 8 * HANDLERS)
  {
    hide Gate;
    for j := 0 to HANDLERS
      invariant Gates(vm.mem[..], handlers, j)
      invariant SameOutside(old(vm.mem[..]), vm.mem[..], HOST_IDT_FINAL, HOST_IDT_FINAL + 8 * HANDLERS)
    {
      ghost var m := vm.mem[..];
      SetupIdtEntry(vm, j, handlers[j]);
      forall k: int | 0 <= k < j ensures Gate(vm.mem[..], k, handlers[k]) {
        GateKept(m, vm.mem[..], k, handlers[k], j);
      }
    }
  }

  method SetupDescriptors(vm: Machine, handlers: seq<Dword>)
    requires vm.Valid() && |handlers| == HANDLERS
    modifies vm.mem
    ensures Descriptors(vm.mem[..], handlers) && OnlyDescriptors(old(vm.mem[..]), vm.mem[..])
  {
    hide ReadW, ReadD, WriteW, WriteD, Gates, OnlyDescriptors;
    ghost var m0 := vm.mem[..];
    vm.SetMemD(HOST_GDTR + 2, HOST_GDT_FINAL, false);
    ghost var m1 := vm.mem[..];
    vm.SetMemW(HOST_GDTR, 11 * 8 - 1, false);
    ghost var m2 := vm.mem[..];
    SetupHostIdt(vm, handlers);
    ghost var m3 := vm.mem[..];
    vm.SetMemD(HOST_IDTR + 2, HOST_IDT_FINAL, false);
    ghost var m4 := vm.mem[..];
    vm.SetMemW(HOST_IDTR, 128 * 8 - 1, false);
    DescriptorStores(m0, m2, m3, handlers);
  }

  lemma DescriptorStores(m0: Mem, m2: Mem, m3: Mem, handlers: seq<Dword>)
    requires m2 == WriteW(WriteD(m0, HOST_GDTR + 2, HOST_GDT_FINAL), HOST_GDTR, 11 * 8 - 1)
    requires Gates(m3, handlers, HANDLERS) && SameOutside(m2, m3, HOST_IDT_FINAL, HOST_IDT_FINAL + 8 * HANDLERS)
    ensures var m' := WriteW(WriteD(m3, HOST_IDTR + 2, HOST_IDT_FINAL), HOST_IDTR, 128 * 8 - 1);
            Descriptors(m', handlers) && OnlyDescriptors(m0, m')
  {
    OnlyDescriptorsStored(m0, m2, m3);
    GatesAside(m3, WriteW(WriteD(m3, HOST_IDTR + 2, HOST_IDT_FINAL), HOST_IDTR, 128 * 8 - 1), handlers);
    GdtrAside(m2, m3);
    hide ReadW, ReadD, WriteW, WriteD, Gates, SameOutside, OnlyDescriptors;
    var m1 := WriteD(m0, HOST_GDTR + 2, HOST_GDT_FINAL);
    WriteDEffect(m0, HOST_GDTR + 2, HOST_GDT_FINAL);
    WriteWEffect(m1, HOST_GDTR, 11 * 8 - 1);
    var m4 := WriteD(m3, HOST_IDTR + 2, HOST_IDT_FINAL);
    WriteDEffect(m3, HOST_IDTR + 2, HOST_IDT_FINAL);
    WriteWEffect(m4, HOST_IDTR, 128 * 8 - 1);
  }

  lemma OnlyDescriptorsStored(m0: Mem, m2: Mem, m3: Mem)
    requires m2 == WriteW(WriteD(m0, HOST_GDTR + 2, HOST_GDT_FINAL), HOST_GDTR, 11 * 8 - 1)
    requires SameOutside(m2, m3, HOST_IDT_FINAL, HOST_IDT_FINAL + 8 * HANDLERS)
    ensures OnlyDescriptors(m0, WriteW(WriteD(m3, HOST_IDTR + 2, HOST_IDT_FINAL), HOST_IDTR, 128 * 8 - 1))
  {
    assert OnlyDescriptors(m0, m2);
    assert OnlyDescriptors(m2, m3);
  }

  lemma GdtrAside(m: Mem, m': Mem)
    requires SameOutside(m, m', HOST_IDT_FINAL, HOST_IDT_FINAL + 8 * HANDLERS)
    ensures ReadW(m', HOST_GDTR) == ReadW(m, HOST_GDTR) && ReadD(m', HOST_GDTR + 2) == ReadD(m, HOST_GDTR + 2)
  {
  }

  lemma GatesAside(m: Mem, m': Mem, handlers: seq<Dword>)
    requires Gates(m, handlers, HANDLERS) &&
             m' == WriteW(WriteD(m, HOST_IDTR + 2, HOST_IDT_FINAL), HOST_IDTR, 128 * 8 - 1)
    ensures Gates(m', handlers, HANDLERS)
  {
    assert SameOutside(m, m', HOST_IDTR, HOST_IDTR + 8);
    hide WriteW, WriteD, Gate, SameOutside;
    forall k: int | 0 <= k < HANDLERS && k < |handlers| ensures Gate(m', k, handlers[k]) {
      GateKept(m, m', k, handlers[k], 0x900 / 8);
    }
  }

  /** What LGDT and LIDT load from a memory operand: the limit and, right after it, the base. */
  function LoadedLimit(m: Mem, operand: Dword): Word { ReadW(m, operand) }

  function LoadedBase(m: Mem, operand: Dword): Dword { ReadD(m, Add(operand, 2)) }

  /** The address the processor takes a gate's handler from: the two halves of its offset. */
  function GateTarget(m: Mem, base: Dword, vector: Byte): Dword {
    ReadW(m, Add(base, 8 * vector)) + 0x1_0000 * ReadW(m, Add(base, 8 * vector + 6))
  }

  /** So an interrupt with one of the first 34 vectors is taken through the loaded IDT, within its
      limit, to the wrapper meant for it. */
  lemma LoadedIdtLeadsToHandlers(m: Mem, handlers: seq<Dword>, vector: Byte)
    requires Descriptors(m, handlers) && vector < HANDLERS && |handlers| == HANDLERS
    ensures LoadedBase(m, HOST_IDTR) == HOST_IDT_FINAL && 8 * vector + 7 <= LoadedLimit(m, HOST_IDTR)
    ensures GateTarget(m, LoadedBase(m, HOST_IDTR), vector) == handlers[vector]
    ensures LoadedBase(m, HOST_GDTR) == HOST_GDT_FINAL && LoadedLimit(m, HOST_GDTR) == 11 * 8 - 1
  {
    hide ReadD, ReadW;
    assert Gate(m, vector, handlers[vector]);
  }

  // ----- the move -----

  const NESTED_DIR_BYTES: Dword := 8
  const HOST_DIR_BYTES: Dword := 16

  /** Where the byte MoveStuff leaves at a comes from, for every a it does not compute: the five
      copies in order, the later ones over the earlier. */
  ghost function Source(a: Dword): Dword {
    if 0x612000 <= a < 0x616000 then a - 0x612000 + 0x71000
    else if 0x611000 <= a < 0x612000 then a - 0x611000 + 0x70000
    else if 0x622000 <= a < 0x623000 then a - 0x622000 + 0x1B000
    else if 0x621000 <= a < 0x622000 then a - 0x621000 + 0x1A000
    else if 0x600000 <= a < 0x620000 then a - 0x600000 + 0x20000
    else a
  }

  ghost function MovedByte(m: Mem, a: Dword): Byte { m[Source(a)] }

  /** The bytes MoveStuff computes: the re-pointed directory entries and the IOPM base. */
  ghost predicate Computed(a: int) {
    || HOST_CR3_FINAL <= a < HOST_CR3_FINAL + HOST_DIR_BYTES
    || NESTED_DIR_FINAL <= a < NESTED_DIR_FINAL + NESTED_DIR_BYTES
    || VMCB_FINAL + IOPM_BASE_PA <= a < VMCB_FINAL + IOPM_BASE_PA + 4
  }

  ghost predicate CopiedExcept(m: Mem, m': Mem) {
    forall a: Dword {:trigger m'[a]} :: !Computed(a) ==> m'[a] == MovedByte(m, a)
  }

  /** Every byte MoveStuff neither computes nor uses for descriptors. */
  ghost predicate MovedExcept(m: Mem, m': Mem) {
    forall a: Dword {:trigger m'[a]} :: !Computed(a) && !DescriptorByte(a) ==> m'[a] == MovedByte(m, a)
  }

  ghost predicate Relocated(m: Mem, m': Mem) {
    && MovedExcept(m, m')
    && DirDone(m', HOST_CR3_FINAL, 4) && DirDone(m', NESTED_DIR_FINAL, 2)
    && VmcbD(m', IOPM_BASE_PA) == VMCB_FINAL + 0x1000
  }

  lemma FiveCopies(m0: Mem, m1: Mem, m2: Mem, m3: Mem, m4: Mem, m5: Mem)
    requires BlockCopied(m0, m1, VMCB_START, VMCB_FINAL, 0x2_0000)
    requires BlockCopied(m1, m2, NESTED_DIR_START, NESTED_DIR_FINAL, 0x1000)
    requires BlockCopied(m2, m3, NESTED_DIR_START + 0x1000, NESTED_DIR_FINAL + 0x1000, GUEST_MEMORY_SIZE / 0x1000 * 4)
    requires BlockCopied(m3, m4, HOST_CR3_VALUE, HOST_CR3_FINAL, 0x1000)
    requires BlockCopied(m4, m5, HOST_CR3_VALUE + 0x1000, HOST_CR3_FINAL + 0x1000, HOST_MEMORY_SIZE / 0x1000 * 4)
    ensures forall a: Dword {:trigger m5[a]} :: m5[a] == MovedByte(m0, a)
  {
  }

  /** Re-pointing one more entry. */
  lemma RepointStep(m0: Mem, m: Mem, dir: Dword, n: nat, k: nat)
    requires Room(dir, n) && k < n && DirDone(m, dir, k)
    requires CopiedExcept(m0, m) && (forall a: Dword :: dir + 4 * k <= a < dir + 4 * k + 4 ==> Computed(a))
    ensures var m' := WriteD(m, dir + 4 * k, dir + 0x1000 * (k + 1) + 7);
            DirDone(m', dir, k + 1) && CopiedExcept(m0, m')
  {
    hide ReadD, WriteD, CopiedExcept, Computed;
    var a: Dword, v: Dword := dir + 4 * k, dir + 0x1000 * (k + 1) + 7;
    ComputedWrite(m0, m, a, v);
    WriteDEffect(m, a, v);
    forall i: int | 0 <= i < k + 1 ensures DirEntry(WriteD(m, a, v), dir, i) {
      assert i < k ==> DirEntry(m, dir, i);
    }
  }

  lemma ComputedWrite(m0: Mem, m: Mem, a: Dword, v: Dword)
    requires CopiedExcept(m0, m) && a + 4 <= MEM_SIZE && (forall b: Dword :: a <= b < a + 4 ==> Computed(b))
    ensures CopiedExcept(m0, WriteD(m, a, v))
  {
    hide MovedByte, Computed;
  }

  lemma DirEntriesKept(m: Mem, m': Mem, dir: Dword, n: nat)
    requires Room(dir, n) && DirDone(m, dir, n) && Same(m, m', dir, dir + 4 * n)
    ensures DirDone(m', dir, n)
  {
    forall i: int | 0 <= i < n ensures DirEntry(m', dir, i) {
      assert DirEntry(m, dir, i);
    }
  }

  /** handlers are the addresses of the interrupt wrappers. */
  method MoveStuff(vm: Machine, handlers: seq<Dword>)
    requires vm.Valid() && |handlers| == HANDLERS
    modifies vm.mem
    ensures Relocated(old(vm.mem[..]), vm.mem[..]) && Descriptors(vm.mem[..], handlers)
  {
    hide DirDone, WriteD, CopyForward, BlockCopied, CopiedExcept, ReadD, Descriptors, Relocated, OnlyDescriptors;
    ghost var before := vm.mem[..];
    SetupDescriptors(vm, handlers);
    ghost var m0 := vm.mem[..];
    Relocate(vm);
    DescriptorsAside(before, m0, vm.mem[..], handlers);
  }

  /** Only the descriptors differ. */
  ghost predicate OnlyDescriptors(m: Mem, m': Mem) {
    forall a: Dword {:trigger m'[a]} :: !DescriptorByte(a) ==> m'[a] == m[a]
  }

  lemma DescriptorsAside(m: Mem, m0: Mem, m': Mem, handlers: seq<Dword>)
    requires OnlyDescriptors(m, m0) && |handlers| == HANDLERS && Descriptors(m0, handlers)
    requires CopiedExcept(m0, m') && DirDone(m', HOST_CR3_FINAL, 4) && DirDone(m', NESTED_DIR_FINAL, 2)
    requires VmcbD(m', IOPM_BASE_PA) == VMCB_FINAL + 0x1000
    ensures Relocated(m, m') && Descriptors(m', handlers)
  {
    assert MovedExcept(m, m') by { hide DirDone, Descriptors; }
    DescriptorsKept(m0, m', handlers) by {
      hide DirDone, Descriptors;
      assert forall a: Dword :: DescriptorByte(a) ==> m'[a] == m0[a];
    }
  }

  /** The copies and the re-pointing. */
  method Relocate(vm: Machine)
    requires vm.Valid()
    modifies vm.mem
    ensures CopiedExcept(old(vm.mem[..]), vm.mem[..])
    ensures DirDone(vm.mem[..], HOST_CR3_FINAL, 4) && DirDone(vm.mem[..], NESTED_DIR_FINAL, 2)
    ensures VmcbD(vm.mem[..], IOPM_BASE_PA) == VMCB_FINAL + 0x1000
  {
    hide DirDone, WriteD, CopyForward, BlockCopied, CopiedExcept, ReadD;
    ghost var m0 := vm.mem[..];
    CopyData(vm, VMCB_START, VMCB_FINAL, 0x2_0000);
    CopyForwardIsBlockCopy(m0, VMCB_START, VMCB_FINAL, 0x2_0000);
    ghost var m1 := vm.mem[..];
    CopyData(vm, NESTED_DIR_START, NESTED_DIR_FINAL, 0x1000);
    CopyForwardIsBlockCopy(m1, NESTED_DIR_START, NESTED_DIR_FINAL, 0x1000);
    ghost var m2 := vm.mem[..];
    CopyData(vm, NESTED_DIR_START + 0x1000, NESTED_DIR_FINAL + 0x1000, GUEST_MEMORY_SIZE / 0x1000 * 4);
    CopyForwardIsBlockCopy(m2, NESTED_DIR_START + 0x1000, NESTED_DIR_FINAL + 0x1000, GUEST_MEMORY_SIZE / 0x1000 * 4);
    ghost var m3 := vm.mem[..];
    CopyData(vm, HOST_CR3_VALUE, HOST_CR3_FINAL, 0x1000);
    CopyForwardIsBlockCopy(m3, HOST_CR3_VALUE, HOST_CR3_FINAL, 0x1000);
    ghost var m4 := vm.mem[..];
    CopyData(vm, HOST_CR3_VALUE + 0x1000, HOST_CR3_FINAL + 0x1000, HOST_MEMORY_SIZE / 0x1000 * 4);
    CopyForwardIsBlockCopy(m4, HOST_CR3_VALUE + 0x1000, HOST_CR3_FINAL + 0x1000, HOST_MEMORY_SIZE / 0x1000 * 4);
    ghost var m5 := vm.mem[..];
    FiveCopies(m0, m1, m2, m3, m4, m5);
    AllMoved(m0, m5);
    NothingDone(m5, NESTED_DIR_FINAL, 2);
    for cnt := 0 to GUEST_MEMORY_SIZE / 0x40_0000 + 1
      invariant DirDone(vm.mem[..], NESTED_DIR_FINAL, cnt) && CopiedExcept(m0, vm.mem[..])
    {
      RepointStep(m0, vm.mem[..], NESTED_DIR_FINAL, 2, cnt);
      UpdatePDEntry(vm, NESTED_DIR_FINAL, cnt, NESTED_DIR_FINAL + 0x1000 + cnt * 0x1000);
    }
    ghost var m6 := vm.mem[..];
    NothingDone(m6, HOST_CR3_FINAL, 4);
    for cnt := 0 to HOST_MEMORY_SIZE / 0x40_0000
      invariant DirDone(vm.mem[..], HOST_CR3_FINAL, cnt) && CopiedExcept(m0, vm.mem[..])
      invariant DirDone(vm.mem[..], NESTED_DIR_FINAL, 2)
    {
      RepointStep(m0, vm.mem[..], HOST_CR3_FINAL, 4, cnt);
      ghost var before := vm.mem[..];
      UpdatePDEntry(vm, HOST_CR3_FINAL, cnt, HOST_CR3_FINAL + 0x1000 + cnt * 0x1000);
      OtherDirKept(before, HOST_CR3_FINAL + 4 * cnt, HOST_CR3_FINAL + 0x1000 + cnt * 0x1000 + 7, NESTED_DIR_FINAL, 2);
    }
    ghost var m7 := vm.mem[..];
    vm.SetVmcbD(IOPM_BASE_PA, VMCB_FINAL + 0x1000);
    IopmStep(m0, m7);
  }

  lemma AllMoved(m: Mem, m': Mem)
    requires forall a: Dword {:trigger m'[a]} :: m'[a] == MovedByte(m, a)
    ensures CopiedExcept(m, m')
  {
    hide MovedByte;
  }

  lemma OtherDirKept(m: Mem, a: Dword, v: Dword, dir: Dword, n: nat)
    requires Room(dir, n) && DirDone(m, dir, n) && a + 4 <= MEM_SIZE && (a + 4 <= dir || dir + 4 * n <= a)
    ensures DirDone(WriteD(m, a, v), dir, n)
  {
    DirEntriesKept(m, WriteD(m, a, v), dir, n) by { hide DirDone; }
  }

  lemma IopmStep(m0: Mem, m: Mem)
    requires DirDone(m, HOST_CR3_FINAL, 4) && DirDone(m, NESTED_DIR_FINAL, 2) && CopiedExcept(m0, m)
    ensures var m' := PutD(m, IOPM_BASE_PA, VMCB_FINAL + 0x1000);
            && CopiedExcept(m0, m') && DirDone(m', HOST_CR3_FINAL, 4) && DirDone(m', NESTED_DIR_FINAL, 2)
            && VmcbD(m', IOPM_BASE_PA) == VMCB_FINAL + 0x1000
  {
    var a: Dword, v: Dword := VMCB_FINAL + IOPM_BASE_PA, VMCB_FINAL + 0x1000;
    assert CopiedExcept(m0, WriteD(m, a, v)) by { hide DirDone; }
    hide ReadD, WriteD, CopiedExcept, DirDone;
    WriteDEffect(m, a, v);
    OtherDirKept(m, a, v, HOST_CR3_FINAL, 4);
    OtherDirKept(m, a, v, NESTED_DIR_FINAL, 2);
  }
}
