/** ChangeMappingTableEntries: re-pointing a run of consecutive page table entries. */
module Remap {
  import opened Memory
  import opened Paging
  import opened MachineState
  import opened GuestMemory

  /** The entry written for the k-th page: (0x1000 * k + newStart) | 7 on 32 bits. */
  function NewEntry(newStart: Dword, k: nat): Dword {
    var v: int := (0x1000 * k + newStart) % MEM_SIZE;
    v - v % 8 + 7
  }

  /** Where the k-th entry goes, on 32 bits. */
  function EntryAt(base: Dword, k: nat): Dword {
    (base + 4 * k) % MEM_SIZE
  }

  /** The stores of the loop, one after the other; a window that runs over 4 GiB goes on at 0, and
      one of more than 2^30 entries overwrites itself. */
  function Remapped(m: Mem, base: Dword, n: nat, newStart: Dword): Mem {
    hide WriteD, NewEntry;
    if n == 0 then m else WriteD(Remapped(m, base, n - 1, newStart), EntryAt(base, n - 1), NewEntry(newStart, n - 1))
  }

  method ChangeMappingTableEntries(vm: Machine, tableAddress: Dword, startEntry: Dword, entryCount: Dword,
                                   newStart: Dword)
    requires vm.Valid()
    modifies vm.mem
    ensures vm.mem[..] == Remapped(old(vm.mem[..]), Add(tableAddress, startEntry), entryCount, newStart)
  {
    hide WriteD, NewEntry;
    var cnt: int := 0;
    while cnt < entryCount
      invariant 0 <= cnt <= entryCount
      invariant vm.mem[..] == Remapped(old(vm.mem[..]), Add(tableAddress, startEntry), cnt, newStart)
    {
      var tempAddr := (tableAddress + startEntry + cnt * 4) % MEM_SIZE;
      EntryAddressComputed(tableAddress, startEntry, cnt);
      var tempVal: int := cnt * 0x1000 % MEM_SIZE;
      tempVal := (tempVal + newStart) % MEM_SIZE;
      EntryComputed(newStart, cnt);
      tempVal := tempVal - tempVal % 8 + 7;
      vm.SetMemD(tempAddr, tempVal, false);
      cnt := cnt + 1;
    }
  }

  lemma EntryAddressComputed(tableAddress: Dword, startEntry: Dword, cnt: nat)
    ensures (tableAddress + startEntry + cnt * 4) % MEM_SIZE == EntryAt(Add(tableAddress, startEntry), cnt)
  {
  }

  lemma EntryComputed(newStart: Dword, k: nat)
    ensures var v := (k * 0x1000 % MEM_SIZE + newStart) % MEM_SIZE; v - v % 8 + 7 == NewEntry(newStart, k)
  {
    var t: int := k * 0x1000;
    assert (t % MEM_SIZE + newStart) % MEM_SIZE == (t + newStart) % MEM_SIZE;
  }

  /** How far a lies behind base, going round at 4 GiB. */
  function Behind(base: Dword, a: Dword): Dword {
    if base <= a then a - base else a - base + MEM_SIZE
  }

  /** A window of aligned entries may run over 4 GiB; as long as it does not catch up with itself
      every entry of it holds its page, and every byte behind its end is as it was. */
  lemma {:induction false} RemappedAround(m: Mem, base: Dword, n: nat, newStart: Dword)
    requires base % 4 == 0 && 4 * n <= MEM_SIZE
    ensures forall k: nat {:trigger NewEntry(newStart, k)} ::
              k < n ==> ReadD(Remapped(m, base, n, newStart), EntryAt(base, k)) == NewEntry(newStart, k)
    ensures forall a: Dword {:trigger Remapped(m, base, n, newStart)[a]} ::
              4 * n <= Behind(base, a) ==> Remapped(m, base, n, newStart)[a] == m[a]
  {
    hide ReadD, WriteD, NewEntry, EntryAt, Behind;
    if n > 0 {
      var m1, e, v := Remapped(m, base, n - 1, newStart), EntryAt(base, n - 1), NewEntry(newStart, n - 1);
      RemappedAround(m, base, n - 1, newStart);
      AlignedEntry(base, n - 1);
      WriteDEffect(m1, e, v);
      forall k: nat | k < n
        ensures ReadD(Remapped(m, base, n, newStart), EntryAt(base, k)) == NewEntry(newStart, k)
      {
        if k < n - 1 {
          AlignedEntry(base, k);
          EntriesApart(base, k, n - 1);
        }
      }
      forall a: Dword | 4 * n <= Behind(base, a) ensures Remapped(m, base, n, newStart)[a] == m[a] {
        BehindEntry(base, n - 1, a);
        BytesElsewhere(m1, e, v, a);
      }
    }
  }

  lemma AlignedEntry(base: Dword, k: nat)
    requires base % 4 == 0
    ensures EntryAt(base, k) % 4 == 0 && EntryAt(base, k) + 4 <= MEM_SIZE
  {
  }

  lemma EntriesApart(base: Dword, j: nat, k: nat)
    requires base % 4 == 0 && j < k && 4 * k < MEM_SIZE
    ensures EntryAt(base, j) + 4 <= EntryAt(base, k) || EntryAt(base, k) + 4 <= EntryAt(base, j)
  {
  }

  lemma BehindEntry(base: Dword, k: nat, a: Dword)
    requires base % 4 == 0 && 4 * (k + 1) <= Behind(base, a)
    ensures a < EntryAt(base, k) || EntryAt(base, k) + 4 <= a
  {
  }

  lemma BytesElsewhere(m: Mem, e: Dword, v: Dword, a: Dword)
    requires e + 4 <= MEM_SIZE && (a < e || e + 4 <= a)
    ensures WriteD(m, e, v)[a] == m[a]
  {
  }

  // ----- windows that do not run over 4 GiB -----

  /** Entries 0 to n - 1 at base are rewritten and no other byte is. */
  ghost predicate Rewritten(m: Mem, m': Mem, base: Dword, n: nat, newStart: Dword) {
    && (forall k: nat {:trigger NewEntry(newStart, k)} ::
          k < n && base + 4 * k < MEM_SIZE ==> ReadD(m', base + 4 * k) == NewEntry(newStart, k))
    && SameOutside(m, m', base, base + 4 * n)
  }

  lemma {:induction false} RemappedIsRewritten(m: Mem, base: Dword, n: nat, newStart: Dword)
    requires base + 4 * n <= MEM_SIZE
    ensures Rewritten(m, Remapped(m, base, n, newStart), base, n, newStart)
  {
    hide Rewritten, WriteD, NewEntry;
    if n == 0 {
      NothingRewritten(m, base, newStart);
    } else {
      RemappedIsRewritten(m, base, n - 1, newStart);
      RewriteStep(m, Remapped(m, base, n - 1, newStart), base, n - 1, newStart);
    }
  }

  lemma RewriteStep(m0: Mem, m: Mem, base: Dword, n: nat, newStart: Dword)
    requires base + 4 * (n + 1) <= MEM_SIZE && Rewritten(m0, m, base, n, newStart)
    ensures Rewritten(m0, WriteD(m, base + 4 * n, NewEntry(newStart, n)), base, n + 1, newStart)
  {
    hide NewEntry;
    var a: Dword, v := base + 4 * n, NewEntry(newStart, n);
    assert SameOutside(m0, WriteD(m, a, v), base, base + 4 * (n + 1));
    hide ReadD, WriteD, SameOutside;
    WriteDEffect(m, a, v);
  }

  lemma NothingRewritten(m: Mem, base: Dword, newStart: Dword)
    ensures Rewritten(m, m, base, 0, newStart)
  {
  }

  /** The pages whose entries lie in the window. */
  predicate InWindow(a: Dword, startEntry: Dword, n: nat) {
    startEntry / 4 <= a / 0x1000 < startEntry / 4 + n
  }

  function NewAddress(a: Dword, startEntry: Dword, newStart: Dword): Dword
    requires startEntry / 4 <= a / 0x1000
  {
    Join((0x1000 * (a / 0x1000 - startEntry / 4) + newStart) % MEM_SIZE, a)
  }

  /** The window's pages are looked up at newStart onwards, page by page, and every other page
      where it was, for any tables and any target. */
  lemma RemapsExactlyItsWindow(m: Mem, m': Mem, dir: Dword, startEntry: Dword, n: nat, newStart: Dword, a: Dword)
    requires dir + 0x1000 + startEntry < MEM_SIZE && startEntry % 4 == 0
    requires Rewritten(m, m', dir + 0x1000 + startEntry, n, newStart)
    requires dir + 0x1000 + 4 * (a / 0x1000) + 4 <= MEM_SIZE
    ensures FlatLookup(m', dir, a) ==
            if InWindow(a, startEntry, n) then NewAddress(a, startEntry, newStart) else FlatLookup(m, dir, a)
  {
    hide ReadD, NewEntry, Rewritten, FlatEntryAddress;
    var e: Dword := dir + 0x1000 + 4 * (a / 0x1000);
    EntryOfPage(dir, a);
    if InWindow(a, startEntry, n) {
      var k := a / 0x1000 - startEntry / 4;
      WindowEntry(m, m', dir + 0x1000 + startEntry, n, newStart, k);
      NewEntryFrame(newStart, k);
    } else {
      EntryOutside(m, m', dir + 0x1000 + startEntry, n, newStart, e);
    }
  }

  lemma EntryOfPage(dir: Dword, a: Dword)
    requires dir + 0x1000 + 4 * (a / 0x1000) + 4 <= MEM_SIZE
    ensures FlatEntryAddress(dir, a) == dir + 0x1000 + 4 * (a / 0x1000)
  {
    assert PageOf(a) == 0x1000 * (a / 0x1000);
  }

  lemma WindowEntry(m: Mem, m': Mem, base: Dword, n: nat, newStart: Dword, k: nat)
    requires Rewritten(m, m', base, n, newStart) && k < n && base + 4 * k < MEM_SIZE
    ensures ReadD(m', base + 4 * k) == NewEntry(newStart, k)
  {
    hide ReadD, NewEntry;
    assert NewEntry(newStart, k) == NewEntry(newStart, k);
  }

  lemma NewEntryFrame(newStart: Dword, k: nat)
    ensures PageOf(NewEntry(newStart, k)) == PageOf((0x1000 * k + newStart) % MEM_SIZE)
  {
    var v: int := (0x1000 * k + newStart) % MEM_SIZE;
    assert v % 0x1000 % 8 == v % 8;
  }

  lemma EntryOutside(m: Mem, m': Mem, base: Dword, n: nat, newStart: Dword, e: Dword)
    requires Rewritten(m, m', base, n, newStart) && e + 4 <= MEM_SIZE && (e + 4 <= base || base + 4 * n <= e)
    ensures ReadD(m', e) == ReadD(m, e)
  {
    hide NewEntry;
  }

  /** And so for the processor, which looks at the present bit: the window's pages are walked to their
      targets, present or not before, and every other page as before. */
  lemma RemappedWalk(m: Mem, m': Mem, dir: Dword, tables: nat, startEntry: Dword, n: nat, newStart: Dword, a: Dword)
    requires Contiguous(m, dir, tables) && a < tables * 0x40_0000
    requires dir + 0x1000 + startEntry < MEM_SIZE && startEntry % 4 == 0
    requires Rewritten(m, m', dir + 0x1000 + startEntry, n, newStart)
    ensures Walk(m', dir, a) ==
            if InWindow(a, startEntry, n) then Phys(NewAddress(a, startEntry, newStart)) else Walk(m, dir, a)
  {
    hide ReadD, NewEntry, Rewritten, FlatLookup, NewAddress, Walk, Contiguous, PointsAtTable;
    RemapsExactlyItsWindow(m, m', dir, startEntry, n, newStart, a) by { TablesFit(m, dir, tables); }
    DirectoryKept(m, m', dir, tables, startEntry, n, newStart);
    WalkIsFlat(m, dir, tables, a);
    WalkIsFlat(m', dir, tables, a);
    TablesFit(m, dir, tables);
    FlatEntryInTable(dir, tables, a);
    var e: Dword := dir + 0x1000 + 4 * (a / 0x1000);
    if InWindow(a, startEntry, n) {
      var k := a / 0x1000 - startEntry / 4;
      WindowEntry(m, m', dir + 0x1000 + startEntry, n, newStart, k);
      NewEntryPresent(newStart, k);
    } else {
      EntryOutside(m, m', dir + 0x1000 + startEntry, n, newStart, e);
    }
  }

  lemma TablesFit(m: Mem, dir: Dword, tables: nat)
    requires Contiguous(m, dir, tables)
    ensures tables <= 0x400 && dir + 0x1000 * (tables + 1) <= MEM_SIZE
  {
  }

  lemma NewEntryPresent(newStart: Dword, k: nat)
    ensures Present(NewEntry(newStart, k))
  {
  }

  lemma DirectoryKept(m: Mem, m': Mem, dir: Dword, tables: nat, startEntry: Dword, n: nat, newStart: Dword)
    requires Contiguous(m, dir, tables) && dir + 0x1000 + startEntry < MEM_SIZE
    requires Rewritten(m, m', dir + 0x1000 + startEntry, n, newStart)
    ensures Contiguous(m', dir, tables)
  {
    hide ReadD, Rewritten, PageOf, Present;
    forall i: int | 0 <= i < tables ensures PointsAtTable(m', dir, i) {
      assert PointsAtTable(m, dir, i);
      EntryOutside(m, m', dir + 0x1000 + startEntry, n, newStart, dir + 4 * i);
    }
  }

  /** The rewritten entries of the guest's tables end before the VMCB's CR3 field. */
  ghost predicate GuestWindow(startEntry: Dword, n: nat) {
    startEntry % 4 == 0 && GUEST_CR3_VALUE + 0x1000 + startEntry + 4 * n <= VMCB_FINAL + SAVE_STATE_CR3
  }

  /** Applied to the guest's tables, whatever both levels hold and wherever the target lies: a guest
      address of the window translates to what the nested level makes of its new page. */
  lemma GuestRemap(m: Mem, m': Mem, startEntry: Dword, n: nat, newStart: Dword, a: Dword)
    requires GuestCr3(m) == GUEST_CR3_VALUE && GuestWindow(startEntry, n) && InWindow(a, startEntry, n)
    requires Rewritten(m, m', GUEST_CR3_VALUE + 0x1000 + startEntry, n, newStart)
    ensures TranslateGuestPhysicalAddress(m', a) == FlatLookup(m, NESTED_DIR_FINAL, NewAddress(a, startEntry, newStart))
  {
    hide FlatLookup, NewAddress, Rewritten, NewEntry, ReadD;
    RemapsExactlyItsWindow(m, m', GUEST_CR3_VALUE, startEntry, n, newStart, a);
    EntryOutside(m, m', GUEST_CR3_VALUE + 0x1000 + startEntry, n, newStart, VMCB_FINAL + SAVE_STATE_CR3);
    NestedUntouched(m, m', startEntry, n, newStart, FlatLookup(m', GUEST_CR3_VALUE, a));
  }

  /** And any other address as before. */
  lemma GuestRemapElsewhere(m: Mem, m': Mem, startEntry: Dword, n: nat, newStart: Dword, a: Dword)
    requires GuestCr3(m) == GUEST_CR3_VALUE && GuestWindow(startEntry, n) && !InWindow(a, startEntry, n)
    requires Rewritten(m, m', GUEST_CR3_VALUE + 0x1000 + startEntry, n, newStart)
    ensures TranslateGuestPhysicalAddress(m', a) == TranslateGuestPhysicalAddress(m, a)
  {
    hide FlatLookup, NewAddress, Rewritten, NewEntry, ReadD;
    RemapsExactlyItsWindow(m, m', GUEST_CR3_VALUE, startEntry, n, newStart, a);
    EntryOutside(m, m', GUEST_CR3_VALUE + 0x1000 + startEntry, n, newStart, VMCB_FINAL + SAVE_STATE_CR3);
    NestedUntouched(m, m', startEntry, n, newStart, FlatLookup(m', GUEST_CR3_VALUE, a));
  }

  lemma NestedUntouched(m: Mem, m': Mem, startEntry: Dword, n: nat, newStart: Dword, g: Dword)
    requires GuestWindow(startEntry, n)
    requires Rewritten(m, m', GUEST_CR3_VALUE + 0x1000 + startEntry, n, newStart)
    ensures FlatLookup(m', NESTED_DIR_FINAL, g) == FlatLookup(m, NESTED_DIR_FINAL, g)
  {
    hide ReadD, Rewritten;
    assert FlatEntryAddress(NESTED_DIR_FINAL, g) == NESTED_DIR_FINAL + 0x1000 + 4 * (g / 0x1000);
    EntryOutside(m, m', GUEST_CR3_VALUE + 0x1000 + startEntry, n, newStart, FlatEntryAddress(NESTED_DIR_FINAL, g));
  }

  /** Under the visor's identity tables the window's addresses translate to the new pages, as
      long as these lie below 4 MiB, and all others to themselves. */
  lemma IdentityRemap(m: Mem, m': Mem, startEntry: Dword, n: nat, newStart: Dword, a: Dword)
    requires TablesOk(m) && a < GUEST_MEMORY_SIZE && GuestWindow(startEntry, n)
    requires newStart + 0x1000 * n <= GUEST_MEMORY_SIZE
    requires Rewritten(m, m', GUEST_CR3_VALUE + 0x1000 + startEntry, n, newStart)
    ensures TranslateGuestPhysicalAddress(m', a) ==
            if InWindow(a, startEntry, n) then NewAddress(a, startEntry, newStart) else a
  {
    hide FlatLookup, NewAddress, IdentityFrames, Rewritten, TranslateGuestPhysicalAddress;
    if InWindow(a, startEntry, n) {
      GuestRemap(m, m', startEntry, n, newStart, a);
      NewAddressInRange(a, startEntry, n, newStart);
      IdentityLookup(m, NESTED_DIR_FINAL, 1, NewAddress(a, startEntry, newStart));
    } else {
      GuestRemapElsewhere(m, m', startEntry, n, newStart, a);
      TranslateIsIdentity(m, a);
    }
  }

  lemma NewAddressInRange(a: Dword, startEntry: Dword, n: nat, newStart: Dword)
    requires InWindow(a, startEntry, n) && newStart + 0x1000 * n <= GUEST_MEMORY_SIZE
    ensures NewAddress(a, startEntry, newStart) < GUEST_MEMORY_SIZE
  {
  }
}
