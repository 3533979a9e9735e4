/** Building and then moving the tables keeps their meaning, and leaves the machine with
    identity translation at every level. */
module Boot {
  import opened Memory
  import opened Paging
  import opened Vmcb
  import opened MachineState
  import opened GuestMemory
  import opened Tables

  /** Relocation keeps every translation the moved tables gave, whatever they contain: the
      host walk on its 16 MiB and the nested walk on the first 4 MiB. */
  lemma RelocationKeepsMeaning(m: Mem, m': Mem, a: Dword)
    requires Relocated(m, m')
    requires Contiguous(m, HOST_CR3_VALUE, 4) && Contiguous(m, NESTED_DIR_START, 1)
    ensures a < HOST_MEMORY_SIZE ==> Walk(m', HOST_CR3_FINAL, a) == Walk(m, HOST_CR3_VALUE, a)
    ensures a < GUEST_MEMORY_SIZE ==> Walk(m', NESTED_DIR_FINAL, a) == Walk(m, NESTED_DIR_START, a)
  {
    hide Walk, Contiguous, DirDone, MovedExcept, SameTableBytes, ReadD;
    DoneIsContiguous(m', HOST_CR3_FINAL, 4);
    NestedPrefix(m');
    DoneIsContiguous(m', NESTED_DIR_FINAL, 1);
    TablesMoved(m, m');
    if a < HOST_MEMORY_SIZE {
      RelocationKeepsWalk(m, HOST_CR3_VALUE, m', HOST_CR3_FINAL, 4, a);
    }
    if a < GUEST_MEMORY_SIZE {
      RelocationKeepsWalk(m, NESTED_DIR_START, m', NESTED_DIR_FINAL, 1, a);
    }
  }

  lemma NestedPrefix(m: Mem)
    requires DirDone(m, NESTED_DIR_FINAL, 2)
    ensures DirDone(m, NESTED_DIR_FINAL, 1)
  {
  }

  lemma TablesMoved(m: Mem, m': Mem)
    requires MovedExcept(m, m')
    ensures SameTableBytes(m, HOST_CR3_VALUE, m', HOST_CR3_FINAL, 4)
    ensures SameTableBytes(m, NESTED_DIR_START, m', NESTED_DIR_FINAL, 1)
  {
  }

  /** The second nested directory entry is re-pointed but its table is not copied: there the
      nested walk reads whatever lay at 0x623000 before. */
  lemma SecondNestedTableIsStale(m: Mem, m': Mem, a: Dword)
    requires Relocated(m, m') && GUEST_MEMORY_SIZE <= a < 2 * GUEST_MEMORY_SIZE
    ensures var pte := ReadD(m, 0x623000 + 4 * (a / 0x1000 % 0x400));
            Walk(m', NESTED_DIR_FINAL, a) == if Present(pte) then Phys(Join(pte, a)) else Fault
  {
    hide Walk, Contiguous, DirDone, MovedExcept, ReadD, Join;
    DoneIsContiguous(m', NESTED_DIR_FINAL, 2);
    WalkIsFlat(m', NESTED_DIR_FINAL, 2, a);
    FlatEntryInTable(NESTED_DIR_FINAL, 2, a);
    var e: Dword := 0x623000 + 4 * (a / 0x1000 % 0x400);
    assert FlatEntryAddress(NESTED_DIR_FINAL, a) == e;
    Unmoved(m, m', e);
  }

  lemma Unmoved(m: Mem, m': Mem, a: Dword)
    requires MovedExcept(m, m') && 0x623000 <= a < 0x62_4000
    ensures ReadD(m', a) == ReadD(m, a)
  {
  }

  /** The bytes of the nested enable and of the two roots in the VMCB under construction. */
  ghost predicate RootByte(a: int) {
    || a == VMCB_START + NESTED_PAGING
    || VMCB_START + NESTED_CR3 <= a < VMCB_START + NESTED_CR3 + 4
    || VMCB_START + SAVE_STATE_CR3 <= a < VMCB_START + SAVE_STATE_CR3 + 4
  }

  ghost predicate RootsAt(m: Mem, base: Dword) {
    && base + 0x1000 <= MEM_SIZE && m[base + NESTED_PAGING] == 1
    && ReadD(m, base + NESTED_CR3) == NESTED_DIR_FINAL && ReadD(m, base + SAVE_STATE_CR3) == GUEST_CR3_VALUE
  }

  ghost predicate OnlyRoots(m: Mem, m': Mem) {
    forall a: Dword {:trigger m[a]} {:trigger m'[a]} :: !RootByte(a) ==> m'[a] == m[a]
  }

  /** They are stored a byte at a time. */
  method SetupVmcbRoots(vm: Machine)
    requires vm.Valid()
    modifies vm.mem
    ensures RootsAt(vm.mem[..], VMCB_START) && OnlyRoots(old(vm.mem[..]), vm.mem[..])
  {
    vm.SetMemB(VMCB_START + NESTED_PAGING, 1, false);
    vm.SetMemB(VMCB_START + NESTED_CR3, NESTED_DIR_FINAL % 0x100, false);
    vm.SetMemB(VMCB_START + NESTED_CR3 + 1, NESTED_DIR_FINAL / 0x100 % 0x100, false);
    vm.SetMemB(VMCB_START + NESTED_CR3 + 2, NESTED_DIR_FINAL / 0x1_0000 % 0x100, false);
    vm.SetMemB(VMCB_START + NESTED_CR3 + 3, NESTED_DIR_FINAL / 0x100_0000 % 0x100, false);
    vm.SetMemB(VMCB_START + SAVE_STATE_CR3, GUEST_CR3_VALUE % 0x100, false);
    vm.SetMemB(VMCB_START + SAVE_STATE_CR3 + 1, GUEST_CR3_VALUE / 0x100 % 0x100, false);
    vm.SetMemB(VMCB_START + SAVE_STATE_CR3 + 2, GUEST_CR3_VALUE / 0x1_0000 % 0x100, false);
    vm.SetMemB(VMCB_START + SAVE_STATE_CR3 + 3, GUEST_CR3_VALUE / 0x100_0000 % 0x100, false);
  }

  /** What the boot sequence leaves: roots in place, and identity at every level. */
  ghost predicate Booted(m: Mem) {
    && TablesOk(m) && Contiguous(m, NESTED_DIR_FINAL, 1)
    && VmcbD(m, NESTED_CR3) == NESTED_DIR_FINAL && VmcbB(m, NESTED_PAGING) == 1
    && VmcbD(m, IOPM_BASE_PA) == VMCB_FINAL + 0x1000
    && (forall a: Dword {:trigger Walk(m, HOST_CR3_FINAL, a)} :: a < HOST_MEMORY_SIZE ==>
        Walk(m, HOST_CR3_FINAL, a) == Phys(a))
    && (forall a: Dword {:trigger Walk(m, NESTED_DIR_FINAL, a)} :: a < GUEST_MEMORY_SIZE ==>
        Walk(m, NESTED_DIR_FINAL, a) == Phys(a))
    && (forall a: Dword {:trigger NestedWalk(m, NESTED_DIR_FINAL, GUEST_CR3_VALUE, a)} ::
          a < GUEST_MEMORY_SIZE ==> NestedWalk(m, NESTED_DIR_FINAL, GUEST_CR3_VALUE, a) == Phys(a))
  }

  /** Everything built, before anything is moved. */
  ghost predicate Built(m: Mem) {
    && DirDone(m, HOST_CR3_VALUE, 5) && TabDone(m, HOST_CR3_VALUE, 0x400 * 5)
    && DirDone(m, NESTED_DIR_START, 2) && TabDone(m, NESTED_DIR_START, 0x400 * 2)
    && DirDone(m, GUEST_CR3_VALUE, 2) && TabDone(m, GUEST_CR3_VALUE, 0x400 * 2)
    && RootsAt(m, VMCB_START)
  }

  lemma TabMoved(m: Mem, m': Mem)
    requires Relocated(m, m') && Built(m)
    ensures TabDone(m', HOST_CR3_FINAL, 0x400 * 4) && TabDone(m', NESTED_DIR_FINAL, 0x400)
    ensures DirDone(m', GUEST_CR3_VALUE, 2) && TabDone(m', GUEST_CR3_VALUE, 0x400 * 2)
  {
    hide DirDone, TabDone, MovedExcept, SameTableBytes;
    TablesMoved(m, m');
    TabsFollow(m, HOST_CR3_VALUE, 5, m', HOST_CR3_FINAL, 4);
    TabsFollow(m, NESTED_DIR_START, 2, m', NESTED_DIR_FINAL, 1);
    GuestUnmoved(m, m');
    DoneElsewhere(m, m', GUEST_CR3_VALUE, 2);
  }

  lemma GuestUnmoved(m: Mem, m': Mem)
    requires MovedExcept(m, m')
    ensures Same(m, m', GUEST_CR3_VALUE, GUEST_CR3_VALUE + 0x3000)
  {
  }

  lemma TabsFollow(m: Mem, dir: Dword, n: nat, m': Mem, dir': Dword, n': nat)
    requires Room(dir, n) && Room(dir', n') && n' <= n
    requires TabDone(m, dir, 0x400 * n) && SameTableBytes(m, dir, m', dir', n')
    ensures TabDone(m', dir', 0x400 * n')
  {
    hide ReadD, SameTableBytes;
    forall i: int | 0 <= i < 0x400 * n' ensures TabEntry(m', dir', i) {
      assert TabEntry(m, dir, i);
      MovedEntry(m, dir, m', dir', n', 4 * i);
    }
  }

  lemma BuiltRoots(m: Mem)
    requires Built(m)
    ensures RootsAt(m, VMCB_START)
  {
    hide DirDone, TabDone, RootsAt;
  }

  /** From built tables, relocation reaches the booted state. */
  lemma BuildThenMoveIsIdentity(m: Mem, m': Mem)
    requires Relocated(m, m') && Built(m)
    ensures Booted(m')
  {
    hide DirDone, TabDone, MovedExcept, Walk, NestedWalk, ReadD, IdentityFrames, Built, Contiguous;
    TabMoved(m, m');
    BuiltRoots(m);
    RootsFollow(m, m');
    NestedPrefix(m');
    DoneIsContiguous(m', NESTED_DIR_FINAL, 1);
    DoneIsIdentity(m', HOST_CR3_FINAL, 4);
    DoneIsIdentity(m', NESTED_DIR_FINAL, 1);
    DoneIsIdentity(m', GUEST_CR3_VALUE, 2);
    FirstTable(m', GUEST_CR3_VALUE, 2);
    GuestIdentity(m');
  }

  lemma FirstTable(m: Mem, dir: Dword, n: nat)
    requires 0 < n && IdentityFrames(m, dir, n)
    ensures IdentityFrames(m, dir, 1)
  {
  }

  lemma GuestIdentity(m: Mem)
    requires DirDone(m, GUEST_CR3_VALUE, 2) && TabDone(m, GUEST_CR3_VALUE, 0x400 * 2)
    requires DirDone(m, NESTED_DIR_FINAL, 1) && TabDone(m, NESTED_DIR_FINAL, 0x400)
    ensures forall a: Dword {:trigger NestedWalk(m, NESTED_DIR_FINAL, GUEST_CR3_VALUE, a)} ::
              a < GUEST_MEMORY_SIZE ==> NestedWalk(m, NESTED_DIR_FINAL, GUEST_CR3_VALUE, a) == Phys(a)
  {
    hide DirDone, TabDone, Walk, NestedWalk, ReadD, IdentityFrames, FlatEntryAddress, FlatLookup, Contiguous;
    DoneIsContiguous(m, GUEST_CR3_VALUE, 2);
    DoneIsContiguous(m, NESTED_DIR_FINAL, 1);
    DoneIsIdentity(m, NESTED_DIR_FINAL, 1);
    DoneIsIdentity(m, GUEST_CR3_VALUE, 2);
    forall a: Dword | a < GUEST_MEMORY_SIZE ensures NestedWalk(m, NESTED_DIR_FINAL, GUEST_CR3_VALUE, a) == Phys(a) {
      IdentityLookup(m, GUEST_CR3_VALUE, 2, a);
      IdentityLookup(m, NESTED_DIR_FINAL, 1, a);
      WalkIsFlat(m, GUEST_CR3_VALUE, 2, a);
      WalkIsFlat(m, NESTED_DIR_FINAL, 1, a);
      FlatRefinesNestedWalk(m, NESTED_DIR_FINAL, 1, GUEST_CR3_VALUE, 2, a);
    }
  }

  /** The bytes the boot sequence stores before the move; of the host and nested tables only if it
      builds them. */
  ghost predicate StoredAtBoot(a: int, paging: bool) {
    RootByte(a) || InTables(a, GUEST_CR3_VALUE, 2) || (paging && PagingByte(a))
  }

  /** Every byte that neither the move computes nor the boot sequence stores was found at start where
      it comes from. */
  ghost predicate Carried(m: Mem, m': Mem, paging: bool) {
    forall a: Dword {:trigger m'[a]} ::
      !Computed(a) && !DescriptorByte(a) && !StoredAtBoot(Source(a), paging) ==> m'[a] == m[Source(a)]
  }

  /** What the boot sequence stores and computes, whether it builds host and nested tables or not: the
      descriptor tables and their operands, the re-pointed directory entries, the guest's tables, the
      IOPM base, and the roots in both copies of the VMCB. */
  ghost predicate Arrived(m: Mem, handlers: seq<Dword>) {
    && Descriptors(m, handlers)
    && DirDone(m, HOST_CR3_FINAL, 4) && DirDone(m, NESTED_DIR_FINAL, 2)
    && DirDone(m, GUEST_CR3_VALUE, 2) && TabDone(m, GUEST_CR3_VALUE, 0x400 * 2)
    && VmcbD(m, IOPM_BASE_PA) == VMCB_FINAL + 0x1000
    && RootsAt(m, VMCB_START) && RootsAt(m, VMCB_FINAL)
  }

  /** The boot order with start.c's call of SetupPaging in place: main builds the paging tables and
      the VMCB, visor.c's main adds the guest's tables and moves everything.  The host directory's
      fifth entry is copied but not re-pointed. */
  method BuildAndMove(vm: Machine, handlers: seq<Dword>)
    requires vm.Valid() && |handlers| == HANDLERS
    modifies vm.mem
    ensures Booted(vm.mem[..])
    ensures Arrived(vm.mem[..], handlers) && Carried(old(vm.mem[..]), vm.mem[..], true)
    ensures Built(vm.mem[..]) && TabDone(vm.mem[..], HOST_CR3_FINAL, 0x400 * 4)
    ensures TabDone(vm.mem[..], NESTED_DIR_FINAL, 0x400)
    ensures ReadD(vm.mem[..], HOST_CR3_FINAL + 0x10) == HOST_CR3_VALUE + 0x5007
  {
    hide DirDone, TabDone, ReadD, Relocated, Booted, OnlyTables, Descriptors, RootsAt, OnlyRoots, Carried, Arrived,
         PagingByte;
    ghost var m0 := vm.mem[..];
    SetupPaging(vm);
    ghost var m1 := vm.mem[..];
    SetupVmcbRoots(vm);
    ghost var m2 := vm.mem[..];
    RootsApart(m1, m2);
    DoneElsewhere(m1, m2, HOST_CR3_VALUE, 5);
    DoneElsewhere(m1, m2, NESTED_DIR_START, 2);
    SetupGuestPages(vm);
    ghost var m3 := vm.mem[..];
    BelowGuestTables(m2, m3);
    DoneElsewhere(m2, m3, HOST_CR3_VALUE, 5);
    DoneElsewhere(m2, m3, NESTED_DIR_START, 2);
    RootsKept(m2, m3);
    MoveStuff(vm, handlers);
    ghost var m4 := vm.mem[..];
    BuildThenMoveIsIdentity(m3, m4);
    TabMoved(m3, m4);
    AllArrived(m3, m4, handlers);
    AllCarried(m0, m1, m2, m3, m4, true);
    BuiltStays(m3, m4);
    FifthEntry(m3, m4);
  }

  lemma RootsApart(m: Mem, m': Mem)
    requires OnlyRoots(m, m')
    ensures Same(m, m', 0, VMCB_START) && Same(m, m', VMCB_START + 0x600, MEM_SIZE)
  {
  }

  lemma AllArrived(m: Mem, m': Mem, handlers: seq<Dword>)
    requires Relocated(m, m') && Descriptors(m', handlers) && RootsAt(m, VMCB_START)
    requires DirDone(m, GUEST_CR3_VALUE, 2) && TabDone(m, GUEST_CR3_VALUE, 0x400 * 2)
    ensures Arrived(m', handlers)
  {
    hide DirDone, TabDone, Descriptors, MovedExcept;
    RootsFollow(m, m');
    GuestTablesStay(m, m');
    LowMemoryStays(m, m');
  }

  lemma LowMemoryStays(m: Mem, m': Mem)
    requires MovedExcept(m, m')
    ensures Same(m, m', 0, VMCB_FINAL)
  {
  }

  lemma AllCarried(m0: Mem, m1: Mem, m2: Mem, m3: Mem, m4: Mem, paging: bool)
    requires forall a: Dword {:trigger m1[a]} :: !(paging && PagingByte(a)) ==> m1[a] == m0[a]
    requires OnlyRoots(m1, m2) && OnlyTables(m2, m3, GUEST_CR3_VALUE, 2) && Relocated(m3, m4)
    ensures Carried(m0, m4, paging)
  {
    hide DirDone, VmcbD, PagingByte, RootByte, InTables, Source, Computed, DescriptorByte;
  }

  lemma BuiltStays(m: Mem, m': Mem)
    requires Built(m) && Relocated(m, m')
    ensures Built(m')
  {
    hide DirDone, TabDone, MovedExcept, RootsAt;
    RootsFollow(m, m');
    LowMemoryStays(m, m');
    DoneElsewhere(m, m', HOST_CR3_VALUE, 5);
    DoneElsewhere(m, m', NESTED_DIR_START, 2);
    DoneElsewhere(m, m', GUEST_CR3_VALUE, 2);
  }

  lemma FifthEntry(m: Mem, m': Mem)
    requires DirDone(m, HOST_CR3_VALUE, 5) && Relocated(m, m')
    ensures ReadD(m', HOST_CR3_FINAL + 0x10) == HOST_CR3_VALUE + 0x5007
  {
    assert MovedExcept(m, m') by { hide DirDone, MovedExcept; }
    assert DirEntry(m, HOST_CR3_VALUE, 4);
  }

  // ----- the boot order as written, without SetupPaging -----

  /** The table entry for a behind dir is present and maps a's page to itself. */
  ghost predicate IdentityEntry(m: Mem, dir: Dword, a: Dword) {
    var e: int := dir + 0x1000 + 4 * (a / 0x1000);
    e < MEM_SIZE && Present(ReadD(m, e)) && PageOf(ReadD(m, e)) == PageOf(a)
  }

  lemma JoinIsIdentity(entry: Dword, a: Dword)
    ensures Join(entry, a) == a <==> PageOf(entry) == PageOf(a)
  {
  }

  /** A moved table gives identity at a exactly when it did before. */
  lemma WalkOfMoved(m: Mem, dir: Dword, m': Mem, dir': Dword, n: nat, a: Dword)
    requires Contiguous(m', dir', n) && dir + 0x1000 * (n + 1) <= MEM_SIZE && a < n * 0x40_0000
    requires SameTableBytes(m, dir, m', dir', n)
    ensures Walk(m', dir', a) == Phys(a) <==> IdentityEntry(m, dir, a)
  {
    hide ReadD, Walk, SameTableBytes, PointsAtTable, Join, PageOf, Present;
    FlatEntryInTable(dir, n, a);
    FlatEntryInTable(dir', n, a);
    WalkIsFlat(m', dir', n, a);
    MovedEntry(m, dir, m', dir', n, 4 * (a / 0x1000));
    JoinIsIdentity(ReadD(m', FlatEntryAddress(dir', a)), a);
  }

  /** Relocation yields identity at a, on the nested and on the host level, exactly when the entry
      for a in the tables before the move did, whoever built them. */
  lemma IdentityAfterMoveExactlyWhen(m: Mem, m': Mem, a: Dword)
    requires Relocated(m, m')
    ensures a < GUEST_MEMORY_SIZE ==>
            (Walk(m', NESTED_DIR_FINAL, a) == Phys(a) <==> IdentityEntry(m, NESTED_DIR_START, a))
    ensures a < HOST_MEMORY_SIZE ==> (Walk(m', HOST_CR3_FINAL, a) == Phys(a) <==> IdentityEntry(m, HOST_CR3_VALUE, a))
  {
    hide Walk, Contiguous, DirDone, MovedExcept, SameTableBytes, IdentityEntry, ReadD;
    DoneIsContiguous(m', HOST_CR3_FINAL, 4);
    NestedPrefix(m');
    DoneIsContiguous(m', NESTED_DIR_FINAL, 1);
    TablesMoved(m, m');
    if a < GUEST_MEMORY_SIZE {
      WalkOfMoved(m, NESTED_DIR_START, m', NESTED_DIR_FINAL, 1, a);
    }
    if a < HOST_MEMORY_SIZE {
      WalkOfMoved(m, HOST_CR3_VALUE, m', HOST_CR3_FINAL, 4, a);
    }
  }

  /** The boot order as it is written: the tables are moved from wherever they happen to be, and
      identity holds exactly where the memory found at start already had an identity entry.  Every
      other byte arrives as with tables built. */
  method MoveAsWritten(vm: Machine, handlers: seq<Dword>)
    requires vm.Valid() && |handlers| == HANDLERS
    modifies vm.mem
    ensures forall a: Dword {:trigger Walk(vm.mem[..], NESTED_DIR_FINAL, a)} :: a < GUEST_MEMORY_SIZE ==>
              (Walk(vm.mem[..], NESTED_DIR_FINAL, a) == Phys(a) <==>
                  IdentityEntry(old(vm.mem[..]), NESTED_DIR_START, a))
    ensures forall a: Dword {:trigger Walk(vm.mem[..], HOST_CR3_FINAL, a)} :: a < HOST_MEMORY_SIZE ==>
              (Walk(vm.mem[..], HOST_CR3_FINAL, a) == Phys(a) <==> IdentityEntry(old(vm.mem[..]), HOST_CR3_VALUE, a))
    ensures Arrived(vm.mem[..], handlers) && Carried(old(vm.mem[..]), vm.mem[..], false)
  {
    hide Walk, DirDone, TabDone, ReadD, Relocated, OnlyTables, Descriptors, IdentityEntry, OnlyRoots, RootsAt, Arrived,
         Carried;
    ghost var m0 := vm.mem[..];
    SetupVmcbRoots(vm);
    ghost var m1 := vm.mem[..];
    SetupGuestPages(vm);
    ghost var m2 := vm.mem[..];
    BelowGuestTables(m1, m2);
    RootsKept(m1, m2);
    MoveStuff(vm, handlers);
    ghost var m3 := vm.mem[..];
    AllArrived(m2, m3, handlers);
    AllCarried(m0, m0, m1, m2, m3, false);
    forall a: Dword | a < HOST_MEMORY_SIZE
      ensures IdentityEntry(m2, HOST_CR3_VALUE, a) == IdentityEntry(m0, HOST_CR3_VALUE, a)
      ensures a < GUEST_MEMORY_SIZE ==> IdentityEntry(m2, NESTED_DIR_START, a) == IdentityEntry(m0, NESTED_DIR_START, a)
    {
      EntriesUntouched(m0, m1, m2, a);
    }
    forall a: Dword | a < HOST_MEMORY_SIZE
      ensures Walk(m3, HOST_CR3_FINAL, a) == Phys(a) <==> IdentityEntry(m0, HOST_CR3_VALUE, a)
      ensures a < GUEST_MEMORY_SIZE ==>
              (Walk(m3, NESTED_DIR_FINAL, a) == Phys(a) <==> IdentityEntry(m0, NESTED_DIR_START, a))
    {
      IdentityAfterMoveExactlyWhen(m2, m3, a);
    }
  }

  lemma EntriesUntouched(m0: Mem, m1: Mem, m2: Mem, a: Dword)
    requires OnlyRoots(m0, m1) && Same(m1, m2, 0, GUEST_CR3_VALUE) &&
             a < HOST_MEMORY_SIZE
    ensures IdentityEntry(m2, HOST_CR3_VALUE, a) == IdentityEntry(m0, HOST_CR3_VALUE, a)
    ensures a < GUEST_MEMORY_SIZE ==> IdentityEntry(m2, NESTED_DIR_START, a) == IdentityEntry(m0, NESTED_DIR_START, a)
  {
    hide PageOf, Present;
    EntryUntouched(m0, m1, m2, HOST_CR3_VALUE + 0x1000 + 4 * (a / 0x1000));
    if a < GUEST_MEMORY_SIZE {
      EntryUntouched(m0, m1, m2, NESTED_DIR_START + 0x1000 + 4 * (a / 0x1000));
    }
  }

  lemma EntryUntouched(m0: Mem, m1: Mem, m2: Mem, e: Dword)
    requires OnlyRoots(m0, m1) && Same(m1, m2, 0, GUEST_CR3_VALUE)
    requires e + 4 <= VMCB_START || VMCB_START + 0x600 <= e < GUEST_CR3_VALUE - 4
    ensures ReadD(m2, e) == ReadD(m0, e)
  {
  }

  lemma RootsFollow(m: Mem, m': Mem)
    requires Relocated(m, m') && RootsAt(m, VMCB_START)
    ensures RootsAt(m', VMCB_FINAL) && RootsAt(m', VMCB_START)
    ensures VmcbD(m', NESTED_CR3) == NESTED_DIR_FINAL && GuestCr3(m') == GUEST_CR3_VALUE
    ensures VmcbB(m', NESTED_PAGING) == 1
  {
    hide DirDone, TabDone;
  }

  lemma GuestTablesStay(m: Mem, m': Mem)
    requires Relocated(m, m') && DirDone(m, GUEST_CR3_VALUE, 2) && TabDone(m, GUEST_CR3_VALUE, 0x400 * 2)
    ensures DirDone(m', GUEST_CR3_VALUE, 2) && TabDone(m', GUEST_CR3_VALUE, 0x400 * 2)
  {
    hide DirDone, TabDone, MovedExcept;
    GuestUnmoved(m, m');
    DoneElsewhere(m, m', GUEST_CR3_VALUE, 2);
  }

  lemma BelowGuestTables(m: Mem, m': Mem)
    requires OnlyTables(m, m', GUEST_CR3_VALUE, 2)
    ensures Same(m, m', 0, GUEST_CR3_VALUE)
  {
  }

  lemma RootsKept(m: Mem, m': Mem)
    requires Same(m, m', 0, GUEST_CR3_VALUE) && RootsAt(m, VMCB_START)
    ensures RootsAt(m', VMCB_START)
  {
  }
}
