/** Whether boot seals the nested tables, and what holds of a booted machine over whole runs. */
module SealedBoot {
  import opened Memory
  import opened Paging
  import opened Vmcb
  import opened MachineState
  import opened GuestMemory
  import opened Runs
  import opened Tables
  import opened Boot
  import opened Confinement
  import opened BreakOut

  /** From a booted and sealed state, over every run: the nested walk stays the identity on the
      guest's 4 MiB, with the nested root and the I/O permission map where boot put them. */
  lemma BootedRunStaysIdentity(s: State, es: seq<Event>, a: Dword)
    requires Initial(s) && Booted(s.mem) && Sealed(s.mem) && EventsOk(es) && a < GUEST_MEMORY_SIZE
    ensures Walk(GuestRun(s, es).mem, NESTED_DIR_FINAL, a) == Phys(a)
    ensures VmcbD(GuestRun(s, es).mem, NESTED_CR3) == NESTED_DIR_FINAL
    ensures VmcbD(GuestRun(s, es).mem, IOPM_BASE_PA) == VMCB_FINAL + 0x1000
  {
    hide GuestRun, Sealed, Booted, Walk, VmcbD, VmcbB;
    BootedFacts(s.mem, a);
    NestedTranslationNeverChanges(s, es, a);
  }

  lemma BootedFacts(m: Mem, a: Dword)
    requires Booted(m) && a < GUEST_MEMORY_SIZE
    ensures NestedOn(m) && VmcbD(m, IOPM_BASE_PA) == VMCB_FINAL + 0x1000 && Walk(m, NESTED_DIR_FINAL, a) == Phys(a)
  {
    hide Walk, NestedWalk, Contiguous, TablesOk, VmcbD;
  }

  /** Boot alone does not seal: the second nested table is whatever lay at 0x623000.  With an
      entry for the VMCB there, the state is booted and the guest can reach the nested CR3. */
  lemma BootedButUnsealed(m: Mem, m': Mem)
    requires Relocated(m, m') && Built(m) && ReadD(m, 0x62_3000) == 0x60_0007
    ensures Booted(m') && Walk(m', NESTED_DIR_FINAL, 0x40_00B0) == Phys(VMCB_FINAL + NESTED_CR3) && !Sealed(m')
  {
    hide Booted, Built, Relocated, Walk, ReadD, OnTable, IsTable;
    BuildThenMoveIsIdentity(m, m');
    SecondNestedTableIsStale(m, m', 0x40_00B0);
    assert !LeafClear(m', 0x40_00B0);
  }

  /** Nor from the visor: with an entry for the page of its variables there, the guest reaches the
      address by which the visor finds the VMCB. */
  lemma BootedVisorExposed(m: Mem, m': Mem)
    requires Relocated(m, m') && Built(m) && ReadD(m, 0x62_3000) == 0x80_4007
    ensures Booted(m') && Walk(m', NESTED_DIR_FINAL, 0x40_0474) == Phys(VMCB_FINAL_ADDRESS) && !Sealed(m')
    ensures forall v: Byte :: Intrudes(m', Poke(0x40_0474, v))
  {
    hide Booted, Built, Relocated, Walk, ReadD, OnTable, IsTable;
    BuildThenMoveIsIdentity(m, m');
    SecondNestedTableIsStale(m, m', 0x40_0474);
    assert !LeafClear(m', 0x40_0474);
  }

  /** Where the visor keeps the VMCB's address: VMCBFinalAddress in its data segment. */
  const VMCB_FINAL_ADDRESS: Dword := 0x80_4474

  /** Entry j of the stale second table leads neither to the VMCB or the visor's memory nor to the
      nested tables. */
  ghost predicate StaleEntryClear(m: Mem, j: int) {
    0 <= j < 0x400 ==>
      var e := ReadD(m, 0x62_3000 + 4 * j);
      Present(e) ==> PageClear(PageOf(e))
  }

  ghost predicate PageClear(page: Dword) {
    page != VMCB_FINAL && !VisorByte(page) && !NestedPage(page)
  }

  ghost predicate UnusedDirEntry(m: Mem, i: int) {
    2 <= i < 0x400 ==> !Present(ReadD(m, NESTED_DIR_START + 4 * i))
  }

  /** Where the rest of the directory was left empty, boot seals the tables exactly when no entry
      of the stale second table leads to the VMCB, the visor's memory or the nested tables. */
  lemma SealedAfterBootExactlyWhen(m: Mem, m': Mem)
    requires Relocated(m, m') && Built(m) && forall i: int :: UnusedDirEntry(m, i)
    ensures Sealed(m') <==> forall j: int :: StaleEntryClear(m, j)
  {
    hide Built, Booted, Relocated, Walk, ReadD, OnTable, IsTable, FrameClear, StaleEntryClear, UnusedDirEntry, Reserved;
    forall a: Dword
      ensures OnTable(m', a) <==> NestedPage(PageOf(a))
      ensures IsTable(m', a) ==> !Reserved(a)
    {
      BootedTables(m, m', a);
      if NestedPage(PageOf(a)) {
        NestedPagesFree(a);
      }
    }
    if Sealed(m') {
      forall j: int ensures StaleEntryClear(m, j) {
        if 0 <= j < 0x400 {
          var p: Dword := GUEST_MEMORY_SIZE + 0x1000 * j;
          TableIndex(1, j);
          assert LeafClear(m', p);
          StaleLeaf(m, m', p, j);
        } else {
          OutOfTable(m, j);
        }
      }
    }
    if forall j: int :: StaleEntryClear(m, j) {
      BuildThenMoveIsIdentity(m, m');
      forall p: Dword ensures LeafClear(m', p) {
        if p < GUEST_MEMORY_SIZE {
          BootedFacts(m', p);
          LowFrameClear(m', p);
        } else if p < 2 * GUEST_MEMORY_SIZE {
          StaleLeaf(m, m', p, p / 0x1000 % 0x400);
        } else {
          EmptyEntry(m, m', p);
        }
      }
    }
  }

  lemma NestedPagesFree(a: Dword)
    requires NestedPage(PageOf(a))
    ensures !Reserved(a)
  {
  }

  ghost predicate NestedPage(page: int) {
    page == NESTED_DIR_FINAL || page == NESTED_DIR_FINAL + 0x1000 || page == NESTED_DIR_FINAL + 0x2000
  }

  lemma OutOfTable(m: Mem, j: int)
    requires !(0 <= j < 0x400)
    ensures StaleEntryClear(m, j)
  {
  }

  lemma BootedTables(m: Mem, m': Mem, a: Dword)
    requires Relocated(m, m') && forall i: int :: UnusedDirEntry(m, i)
    ensures IsTable(m', a) <==> PageOf(a) == NESTED_DIR_FINAL + 0x1000 || PageOf(a) == NESTED_DIR_FINAL + 0x2000
    ensures OnTable(m', a) <==> NestedPage(PageOf(a))
  {
    hide MovedExcept, ReadD;
    assert DirEntry(m', NESTED_DIR_FINAL, 0) && DirEntry(m', NESTED_DIR_FINAL, 1);
    assert TableOf(m', 0, a) <==> PageOf(a) == NESTED_DIR_FINAL + 0x1000;
    assert TableOf(m', 1, a) <==> PageOf(a) == NESTED_DIR_FINAL + 0x2000;
    forall i: int | 2 <= i < 0x400 ensures !TableOf(m', i, a) {
      assert UnusedDirEntry(m, i);
      DirEntryMoved(m, m', i);
    }
  }

  lemma DirEntryMoved(m: Mem, m': Mem, i: int)
    requires MovedExcept(m, m') && 2 <= i < 0x400
    ensures ReadD(m', NESTED_DIR_FINAL + 4 * i) == ReadD(m, NESTED_DIR_START + 4 * i)
  {
  }

  /** The page alone decides whether a frame is clear. */
  lemma FrameByPage(m: Mem, a: Dword)
    requires OnTable(m, a) <==> NestedPage(PageOf(a))
    ensures FrameClear(m, a) <==> PageClear(PageOf(a))
  {
    hide OnTable, NestedPage, PageOf, VisorByte;
    ReservedPage(a);
  }

  lemma ReservedPage(a: Dword)
    ensures VisorByte(a) <==> VisorByte(PageOf(a))
  {
  }

  lemma StaleLeaf(m: Mem, m': Mem, p: Dword, j: int)
    requires Relocated(m, m') && GUEST_MEMORY_SIZE <= p < 2 * GUEST_MEMORY_SIZE && j == p / 0x1000 % 0x400
    requires forall a: Dword {:trigger OnTable(m', a)} :: OnTable(m', a) <==> NestedPage(PageOf(a))
    ensures LeafClear(m', p) <==> StaleEntryClear(m, j)
  {
    hide Relocated, Walk, ReadD, OnTable, PageOf, PageClear, NestedPage;
    SecondNestedTableIsStale(m, m', p);
    var e := ReadD(m, 0x62_3000 + 4 * j);
    if Present(e) {
      FrameByPage(m', Join(e, p));
      JoinParts(e, p);
    }
  }

  lemma LowFrameClear(m: Mem, p: Dword)
    requires p < GUEST_MEMORY_SIZE && (OnTable(m, p) <==> NestedPage(PageOf(p)))
    ensures FrameClear(m, p)
  {
    hide OnTable, PageOf, PageClear, NestedPage, Reserved;
    FrameByPage(m, p);
    LowPageClear(p);
  }

  lemma LowPageClear(p: Dword)
    requires p < GUEST_MEMORY_SIZE
    ensures PageClear(PageOf(p))
  {
  }

  lemma EmptyEntry(m: Mem, m': Mem, p: Dword)
    requires Relocated(m, m') && (forall i: int :: UnusedDirEntry(m, i)) && 2 * GUEST_MEMORY_SIZE <= p
    ensures LeafClear(m', p)
  {
    hide MovedExcept, ReadD, DirDone, OnTable;
    DirAligned();
    assert UnusedDirEntry(m, p / 0x40_0000);
    DirEntryMoved(m, m', p / 0x40_0000);
  }
}
