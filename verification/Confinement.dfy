/** The guest behind the nested tables: what it can write, and what sealed tables keep from it
    over whole runs. */
module Confinement {
  import opened Memory
  import opened Paging
  import opened Vmcb
  import opened MachineState
  import opened Visor
  import opened ExitFrame
  import opened Runs
  import opened Tables
  import LongMath

  /** VMCB fields the processor reads and does not write: the intercepts, the IOPM and MSRPM
      bases, the ASID, the nested-paging controls and the nested CR3. */
  ghost predicate Protected(a: int) {
    || VMCB_FINAL <= a < VMCB_FINAL + 0x14
    || VMCB_FINAL + 0x40 <= a < VMCB_FINAL + 0x5C
    || VMCB_FINAL + NESTED_PAGING <= a < VMCB_FINAL + NESTED_PAGING + 8
    || VMCB_FINAL + NESTED_CR3 <= a < VMCB_FINAL + NESTED_CR3 + 8
  }

  ghost predicate SameProtected(m: Mem, m': Mem) {
    forall a: Dword {:trigger m[a]} {:trigger m'[a]} :: Protected(a) ==> m'[a] == m[a]
  }

  /** Nested paging is on, with the root the visor builds. */
  ghost predicate NestedOn(m: Mem) {
    VmcbD(m, NESTED_CR3) == NESTED_DIR_FINAL && VmcbB(m, NESTED_PAGING) % 2 == 1
  }

  /** The memory the visor itself runs in: its image, with the GDT in it, its stack, the I/O
      permission map, the host page tables, and the pages of the descriptor-table operands and
      the IDT. */
  ghost predicate VisorByte(a: int) {
    || VISOR_FINAL <= a < VISOR_FINAL + VISOR_SIZE
    || HOST_STACK <= a < HOST_STACK + 0x1_0000
    || VMCB_FINAL + 0x1000 <= a < VMCB_FINAL + 0x4000
    || HOST_CR3_FINAL <= a < HOST_CR3_FINAL + 0x5000
    || HOST_GDTR <= a < HOST_GDTR + 0x1000
    || HOST_IDT_FINAL <= a < HOST_IDT_FINAL + 0x1000
  }

  const VISOR_FINAL: Dword := 0x80_0000
  const VISOR_SIZE: Dword := 0x5_0000
  const HOST_STACK: Dword := 0x50_0000

  /** What no guest may reach: the VMCB and the visor's memory. */
  ghost predicate Reserved(a: Dword) {
    PageOf(a) == VMCB_FINAL || VisorByte(a)
  }

  // ----- what is written between two entries -----

  /** One byte written between two VMRUNs: the guest's store to guest-physical address p; the
      processor's setting of the accessed and dirty bits (5 and 6) of an entry that translates
      p; a byte of guest state or exit information it saves in the VMCB; or a byte of its own
      memory that the visor writes. */
  datatype GuestWrite =
    | Poke(p: Dword, v: Byte)
    | Mark(p: Dword, leaf: bool, dirty: bool)
    | Save(f: Field, v: Byte)
    | Own(a: Dword, v: Byte)

  /** Bit 7 of a byte in place, and the byte without it; then without bit 6, and without bit 5. */
  function TopBit(b: Byte): Byte { if b < 0x80 then 0 else 0x80 }

  function Below7(b: Byte): (r: Byte) { if b < 0x80 then b else b - 0x80 }

  function Below6(b: Byte): (r: Byte) { if Below7(b) < 0x40 then Below7(b) else Below7(b) - 0x40 }

  function Below5(b: Byte): (r: Byte) { if Below6(b) < 0x20 then Below6(b) else Below6(b) - 0x20 }

  /** b with bits 5 and 6 cleared. */
  function Unmarked(b: Byte): int {
    TopBit(b) + Below5(b)
  }

  /** b with bit 5 set, and bit 6 as well if dirty. */
  function Marked(b: Byte, dirty: bool): (r: Byte)
    ensures Unmarked(r) == Unmarked(b)
  {
    Unmarked(b) + (if dirty || Below7(b) >= 0x40 then 0x60 else 0x20)
  }

  function NestedPde(m: Mem, p: Dword): Dword {
    ReadD(m, PdeAddress(NESTED_DIR_FINAL, p))
  }

  /** The address of the entry of either level that translates p. */
  function EntryAddress(m: Mem, p: Dword, leaf: bool): Dword {
    if leaf then PteAddress(NestedPde(m, p), p) else PdeAddress(NESTED_DIR_FINAL, p)
  }

  ghost function Written(m: Mem, w: GuestWrite): Mem {
    hide Walk, EntryAddress, Marked, NestedPde;
    match w
    case Poke(p, v) => (match Walk(m, NESTED_DIR_FINAL, p) case Fault => m case Phys(a) => m[a := v])
    case Mark(p, leaf, dirty) =>
      if Walk(m, NESTED_DIR_FINAL, p) == Fault then m else
      var a := EntryAddress(m, p, leaf);
      m[a := Marked(m[a], leaf && dirty)]
    case Save(f, v) => if Protected(VMCB_FINAL + f) then m else m[VMCB_FINAL + f := v]
    case Own(a, v) => if VisorByte(a) then m[a := v] else m
  }

  /** The guest, or the processor on its behalf, writes to the visor's memory.  From then on the
      visor is no longer the program modelled here. */
  ghost predicate Intrudes(m: Mem, w: GuestWrite) {
    match w
    case Poke(p, v) => (match Walk(m, NESTED_DIR_FINAL, p) case Fault => false case Phys(a) => VisorByte(a))
    case Mark(p, leaf, dirty) => Walk(m, NESTED_DIR_FINAL, p) != Fault && VisorByte(EntryAddress(m, p, leaf))
    case Save(f, v) => false
    case Own(a, v) => false
  }

  // ----- runs -----

  /** A write, through the tables as the ones before it left them; or an exit to the visor, with the
      guest's registers and what the ports would return to its handler. */
  datatype Event = Write(w: GuestWrite) | Leave(regs: seq<Dword>, portIn: Dword)

  ghost predicate EventsOk(es: seq<Event>) {
    forall i: nat :: i < |es| ==> es[i].Write? || |es[i].regs| == 14
  }

  /** Once the visor is in its infinite loop the guest is not entered again. */
  ghost function After(s: State, e: Event): (s': State)
    requires WellFormed(s) && (e.Leave? ==> |e.regs| == 14)
    ensures WellFormed(s')
  {
    hide Turn, Written;
    match e
    case Write(w) => if s.halted then s else s.(mem := Written(s.mem, w))
    case Leave(regs, portIn) => Turn(s, Exit(s.mem, regs, portIn))
  }

  ghost function GuestRun(s: State, es: seq<Event>): (s': State)
    requires WellFormed(s) && EventsOk(es)
    ensures WellFormed(s')
    decreases es
  {
    hide After;
    if es == [] then s else After(GuestRun(s, es[..|es| - 1]), es[|es| - 1])
  }

  ghost predicate EventIntrudes(s: State, e: Event) {
    e.Write? && !s.halted && Intrudes(s.mem, e.w)
  }

  ghost predicate RunIntrudes(s: State, es: seq<Event>)
    requires WellFormed(s) && EventsOk(es)
    decreases es
  {
    es != [] &&
    var before := es[..|es| - 1];
    RunIntrudes(s, before) || EventIntrudes(GuestRun(s, before), es[|es| - 1])
  }

  /** Up to its last exit such a run is one of the visor's loop, over the memories the guest left. */
  lemma {:induction false} RunOfLoop(s: State, es: seq<Event>) returns (xs: seq<Exit>)
    requires WellFormed(s) && EventsOk(es)
    ensures ExitsOk(xs) && SameVisor(Run(s, xs), GuestRun(s, es))
    ensures es != [] && es[|es| - 1].Leave? ==> Run(s, xs) == GuestRun(s, es)
    decreases es
  {
    hide Step, Written;
    if es == [] {
      xs := [];
    } else {
      var t, e := GuestRun(s, es[..|es| - 1]), es[|es| - 1];
      var ys := RunOfLoop(s, es[..|es| - 1]);
      if e.Leave? {
        xs := ys + [Exit(t.mem, e.regs, e.portIn)];
        assert xs[..|xs| - 1] == ys;
      } else {
        xs := ys;
      }
    }
  }

  /** The visor's variables agree, and in its infinite loop everything does. */
  ghost predicate SameVisor(s: State, t: State) {
    && s.(mem := t.mem, regs := t.regs) == t
    && (s.halted ==> s == t)
  }

  // ----- sealed tables -----

  /** Entry i of the nested directory makes the page of a a table. */
  ghost predicate TableOf(m: Mem, i: int, a: Dword) {
    && 0 <= i < 0x400 && Present(ReadD(m, NESTED_DIR_FINAL + 4 * i))
    && PageOf(ReadD(m, NESTED_DIR_FINAL + 4 * i)) == PageOf(a)
  }

  ghost predicate IsTable(m: Mem, a: Dword) {
    exists i: int :: TableOf(m, i, a)
  }

  /** The page of a holds nested directory or table entries. */
  ghost predicate OnTable(m: Mem, a: Dword) {
    PageOf(a) == NESTED_DIR_FINAL || IsTable(m, a)
  }

  /** p leads neither to what is reserved nor to the nested tables. */
  ghost predicate LeafClear(m: Mem, p: Dword) {
    match Walk(m, NESTED_DIR_FINAL, p)
    case Fault => true
    case Phys(a) => FrameClear(m, a)
  }

  ghost predicate FrameClear(m: Mem, a: Dword) {
    !Reserved(a) && !OnTable(m, a)
  }

  /** No guest-physical address leads to the VMCB, the visor's memory or the nested tables, and none
      of the first two serves as a table. */
  ghost predicate Sealed(m: Mem) {
    && (forall a: Dword {:trigger IsTable(m, a)} :: IsTable(m, a) ==> !Reserved(a))
    && forall p: Dword :: LeafClear(m, p)
  }

  /** Nothing that confines the guest has changed. */
  ghost predicate Kept(m: Mem, m': Mem) {
    SameProtected(m, m') && forall p: Dword :: Walk(m', NESTED_DIR_FINAL, p) == Walk(m, NESTED_DIR_FINAL, p)
  }

  /** A byte of an entry as before, but for the accessed and dirty bits. */
  ghost predicate SameEntryByte(m: Mem, m': Mem, a: Dword) {
    if a % 4 == 0 then Unmarked(m'[a]) == Unmarked(m[a]) else m'[a] == m[a]
  }

  ghost predicate SameNested(m: Mem, m': Mem) {
    forall a: Dword {:trigger OnTable(m, a)} {:trigger SameEntryByte(m, m', a)} ::
      OnTable(m, a) ==> SameEntryByte(m, m', a)
  }

  lemma UnmarkedByte(b: Byte)
    ensures Unmarked(b) % 2 == b % 2
  {
  }

  lemma PageOfBytes(b0: Byte, b1: Byte, b2: Byte, b3: Byte)
    ensures var v := b0 + 0x100 * b1 + 0x1_0000 * b2 + 0x100_0000 * b3;
            v % 2 == b0 % 2 && v - v % 0x1000 == b1 / 0x10 * 0x1000 + 0x1_0000 * b2 + 0x100_0000 * b3
  {
    var v := b0 + 0x100 * b1 + 0x1_0000 * b2 + 0x100_0000 * b3;
    var h: int, l: int := b1 / 0x10, b1 % 0x10;
    LongMath.DivisionUnique(v, 0x1000, h + 0x10 * b2 + 0x1000 * b3, 0x100 * l + b0);
    LongMath.DivisionUnique(v, 2, b0 / 2 + 0x80 * b1 + 0x8000 * b2 + 0x80_0000 * b3, b0 % 2);
  }

  lemma EntryParts(m: Mem, e: Dword)
    requires e + 4 <= MEM_SIZE
    ensures Present(ReadD(m, e)) <==> m[e] % 2 == 1
    ensures var b1: int, b2: int, b3: int := m[e + 1], m[e + 2], m[e + 3];
            PageOf(ReadD(m, e)) == b1 / 0x10 * 0x1000 + 0x1_0000 * b2 + 0x100_0000 * b3
  {
    PageOfBytes(m[e], m[e + 1], m[e + 2], m[e + 3]);
  }

  lemma EntryMapsAsBefore(m: Mem, m': Mem, e: Dword)
    requires e % 4 == 0 && e + 4 <= MEM_SIZE
    requires SameEntryByte(m, m', e) && SameEntryByte(m, m', e + 1) && SameEntryByte(m, m', e + 2) &&
             SameEntryByte(m, m', e + 3)
    ensures PageOf(ReadD(m', e)) == PageOf(ReadD(m, e)) && (Present(ReadD(m', e)) <==> Present(ReadD(m, e)))
  {
    hide ReadD, PageOf, Unmarked, Present;
    EntryParts(m, e);
    EntryParts(m', e);
    UnmarkedByte(m[e]);
    UnmarkedByte(m'[e]);
  }

  lemma DirEntryAsBefore(m: Mem, m': Mem, i: int)
    requires SameNested(m, m') && 0 <= i < 0x400
    ensures var e: Dword := NESTED_DIR_FINAL + 4 * i;
            PageOf(ReadD(m', e)) == PageOf(ReadD(m, e)) && (Present(ReadD(m', e)) <==> Present(ReadD(m, e)))
  {
    hide ReadD, SameEntryByte, Present, IsTable;
    var e: Dword := NESTED_DIR_FINAL + 4 * i;
    assert OnTable(m, e) && OnTable(m, e + 1) && OnTable(m, e + 2) && OnTable(m, e + 3);
    EntryMapsAsBefore(m, m', e);
  }

  lemma TablesAsBefore(m: Mem, m': Mem, a: Dword)
    requires SameNested(m, m')
    ensures IsTable(m', a) <==> IsTable(m, a)
  {
    hide ReadD, SameNested, Present, PageOf;
    forall i: int | 0 <= i < 0x400 ensures TableOf(m', i, a) <==> TableOf(m, i, a) {
      DirEntryAsBefore(m, m', i);
    }
  }

  lemma TableEntryOnTable(m: Mem, p: Dword, k: Dword)
    requires Present(NestedPde(m, p)) && k < 4 && PteAddress(NestedPde(m, p), p) + k < MEM_SIZE
    ensures OnTable(m, PteAddress(NestedPde(m, p), p) + k)
  {
    hide ReadD, Present, PageOf, PteAddress;
    EntryInPage(NestedPde(m, p), p, k);
    DirAligned();
    assert TableOf(m, p / 0x40_0000, PteAddress(NestedPde(m, p), p) + k);
  }

  lemma EntryInPage(pde: Dword, p: Dword, k: Dword)
    requires k < 4
    ensures PteAddress(pde, p) % 4 == 0 && PteAddress(pde, p) + k < MEM_SIZE &&
            PageOf(PteAddress(pde, p) + k) == PageOf(pde)
  {
    var q, j := pde / 0x1000, p / 0x1000 % 0x400;
    assert PteAddress(pde, p) + k == 0x1000 * q + (4 * j + k);
    assert PageOf(pde) == 0x1000 * q;
    InPage(q, 4 * j + k);
  }

  lemma InPage(q: nat, r: nat)
    requires r < 0x1000
    ensures (0x1000 * q + r) % 0x1000 == r
  {
  }

  lemma WalkAsBefore(m: Mem, m': Mem, p: Dword)
    requires SameNested(m, m')
    ensures Walk(m', NESTED_DIR_FINAL, p) == Walk(m, NESTED_DIR_FINAL, p)
  {
    hide ReadD, SameEntryByte, Present, OnTable, PageOf;
    assert PageOf(NESTED_DIR_FINAL) == NESTED_DIR_FINAL by { DirAligned(); }
    DirEntryAsBefore(m, m', p / 0x40_0000);
    if Present(NestedPde(m, p)) {
      var e := PteAddress(NestedPde(m, p), p);
      EntryInPage(NestedPde(m, p), p, 3);
      TableEntryOnTable(m, p, 0);
      TableEntryOnTable(m, p, 1);
      TableEntryOnTable(m, p, 2);
      TableEntryOnTable(m, p, 3);
      EntryMapsAsBefore(m, m', e);
    }
  }

  lemma VmcbAligned()
    ensures PageOf(VMCB_FINAL) == VMCB_FINAL
  {
  }

  lemma DirAligned()
    ensures PageOf(NESTED_DIR_FINAL) == NESTED_DIR_FINAL
  {
  }

  lemma SealedAsBefore(m: Mem, m': Mem)
    requires Sealed(m) && SameNested(m, m')
    ensures Sealed(m')
  {
    hide Walk, IsTable, SameNested, Reserved;
    forall a: Dword ensures IsTable(m', a) <==> IsTable(m, a) {
      TablesAsBefore(m, m', a);
    }
    forall p: Dword ensures LeafClear(m', p) {
      assert LeafClear(m, p);
      WalkAsBefore(m, m', p);
    }
  }

  lemma SameNestedTransitive(m0: Mem, m1: Mem, m2: Mem)
    requires SameNested(m0, m1) && SameNested(m1, m2)
    ensures SameNested(m0, m2)
  {
    hide IsTable;
    forall a: Dword | OnTable(m0, a) ensures SameEntryByte(m0, m2, a) {
      TablesAsBefore(m0, m1, a) by { hide OnTable; }
      assert SameEntryByte(m0, m1, a) && SameEntryByte(m1, m2, a);
    }
  }

  lemma NothingChanged(m: Mem)
    ensures SameProtected(m, m) && SameNested(m, m)
  {
    hide OnTable, Protected;
  }

  /** A change confined to bytes that are neither protected nor in the tables. */
  lemma ElsewhereChanged(m: Mem, m': Mem)
    requires forall a: Dword {:trigger OnTable(m, a)} {:trigger m'[a]} ::
               Protected(a) || OnTable(m, a) ==> m'[a] == m[a]
    ensures SameProtected(m, m') && SameNested(m, m')
  {
    hide OnTable, Protected;
  }

  /** Through sealed tables no write reaches what confines the guest, nor the visor's memory. */
  lemma WriteKeeps(m: Mem, w: GuestWrite)
    requires Sealed(m)
    ensures SameProtected(m, Written(m, w)) && SameNested(m, Written(m, w)) && !Intrudes(m, w)
  {
    hide Walk, IsTable, EntryAddress, Marked, Unmarked, SameProtected, SameNested, Reserved, VisorByte;
    match w
    case Poke(p, v) =>
      assert LeafClear(m, p);
      match Walk(m, NESTED_DIR_FINAL, p) {
        case Fault => NothingChanged(m);
        case Phys(a) =>
          ReservedBytes(a);
          ByteKeeps(m, a, v);
      }
    case Mark(p, leaf, dirty) =>
      MarkKeeps(m, p, leaf, dirty);
    case Save(f, v) =>
      SaveClear(m, f);
      NothingChanged(m);
      ByteKeepsUnlessProtected(m, VMCB_FINAL + f, v);
    case Own(a, v) =>
      if VisorByte(a) {
        OwnClear(m, a);
        ByteKeeps(m, a, v);
      } else {
        NothingChanged(m);
      }
  }

  lemma ByteKeeps(m: Mem, a: Dword, v: Byte)
    requires !Protected(a) && !OnTable(m, a)
    ensures SameProtected(m, m[a := v]) && SameNested(m, m[a := v])
  {
    hide OnTable, Protected;
    ElsewhereChanged(m, m[a := v]);
  }

  lemma ByteKeepsUnlessProtected(m: Mem, a: Dword, v: Byte)
    requires !OnTable(m, a)
    ensures !Protected(a) ==> SameProtected(m, m[a := v]) && SameNested(m, m[a := v])
  {
    hide OnTable, Protected, SameProtected, SameNested;
    if !Protected(a) {
      ByteKeeps(m, a, v);
    }
  }

  /** Protected bytes are reserved, and so is the whole VMCB page; the directory is not. */
  lemma ReservedBytes(a: Dword)
    ensures Protected(a) ==> PageOf(a) == VMCB_FINAL && Reserved(a)
    ensures VisorByte(a) ==> !Protected(a) && Reserved(a)
    ensures PageOf(a) == NESTED_DIR_FINAL ==> !Reserved(a) && !Protected(a)
  {
  }

  lemma SaveClear(m: Mem, f: Field)
    requires Sealed(m)
    ensures !OnTable(m, VMCB_FINAL + f)
  {
    hide IsTable, VisorByte;
    assert PageOf(VMCB_FINAL + f) == VMCB_FINAL;
  }

  lemma OwnClear(m: Mem, a: Dword)
    requires Sealed(m) && VisorByte(a)
    ensures !OnTable(m, a) && !Protected(a)
  {
    hide IsTable, VisorByte, Protected, Reserved;
    ReservedBytes(a);
  }

  lemma MarkKeeps(m: Mem, p: Dword, leaf: bool, dirty: bool)
    requires Sealed(m)
    ensures var m' := Written(m, Mark(p, leaf, dirty));
            SameProtected(m, m') && SameNested(m, m') && !Intrudes(m, Mark(p, leaf, dirty))
  {
    hide EntryAddress, OnTable, Sealed, Marked, Protected, Unmarked, SameProtected, SameNested, Walk, VisorByte;
    var a := EntryAddress(m, p, leaf);
    NothingChanged(m);
    MarkedAddress(m, p, leaf);
    if OnTable(m, a) {
      TablesUnprotected(m, a);
      EntryMarked(m, a, Marked(m[a], leaf && dirty));
    }
  }

  lemma MarkedAddress(m: Mem, p: Dword, leaf: bool)
    ensures Walk(m, NESTED_DIR_FINAL, p) == Fault || OnTable(m, EntryAddress(m, p, leaf))
    ensures EntryAddress(m, p, leaf) % 4 == 0
  {
    hide Present, IsTable, PteAddress, ReadD, PageOf, Join;
    DirAligned();
    DirEntryOnTable(m, p);
    EntryInPage(NestedPde(m, p), p, 0);
    if Present(NestedPde(m, p)) {
      TableEntryOnTable(m, p, 0);
    }
  }

  lemma DirEntryOnTable(m: Mem, p: Dword)
    ensures OnTable(m, PdeAddress(NESTED_DIR_FINAL, p)) && PdeAddress(NESTED_DIR_FINAL, p) % 4 == 0
  {
    hide IsTable;
  }

  lemma TablesUnprotected(m: Mem, a: Dword)
    requires Sealed(m) && OnTable(m, a)
    ensures !Protected(a) && !VisorByte(a)
  {
    hide IsTable, LeafClear, PageOf, Protected, VisorByte, Reserved;
    ReservedBytes(a);
  }

  lemma EntryMarked(m: Mem, a: Dword, c: Byte)
    requires a % 4 == 0 && !Protected(a) && Unmarked(c) == Unmarked(m[a])
    ensures SameProtected(m, m[a := c]) && SameNested(m, m[a := c])
  {
    hide Protected, Unmarked, OnTable;
  }

  lemma BothTransitive(m0: Mem, m1: Mem, m2: Mem)
    requires SameProtected(m0, m1) && SameNested(m0, m1) && SameProtected(m1, m2) && SameNested(m1, m2)
    ensures SameProtected(m0, m2) && SameNested(m0, m2)
  {
    hide SameNested, Protected;
    SameNestedTransitive(m0, m1, m2);
  }

  /** What an exit's handler writes outside the visor's own memory is all in unprotected fields of
      the VMCB. */
  lemma FramedKeeps(m: Mem, m': Mem)
    requires Sealed(m) && Framed(m, m')
    ensures SameProtected(m, m') && SameNested(m, m')
  {
    hide OnTable, Protected, StepField;
    forall a: Dword | Protected(a) || OnTable(m, a) ensures m'[a] == m[a] {
      StepFieldClear(m, a);
    }
    ElsewhereChanged(m, m');
  }

  lemma StepFieldClear(m: Mem, a: Dword)
    requires Sealed(m)
    ensures StepField(a) ==> !Protected(a) && !OnTable(m, a)
  {
    hide IsTable, VisorByte;
    assert StepField(a) ==> PageOf(a) == VMCB_FINAL;
  }

  lemma ProtectedFields(m: Mem, m': Mem)
    requires SameProtected(m, m')
    ensures VmcbD(m', NESTED_CR3) == VmcbD(m, NESTED_CR3) && VmcbD(m', IOPM_BASE_PA) == VmcbD(m, IOPM_BASE_PA)
    ensures VmcbB(m', NESTED_PAGING) == VmcbB(m, NESTED_PAGING)
  {
  }

  // ----- whole runs -----

  /** From sealed tables, over every run, with anything the guest does in between: the protected
      fields never change, the nested tables change in accessed and dirty bits only, and they
      stay sealed and in use; and nothing but the visor writes to the visor's memory. */
  lemma {:induction false} SealedRunKeeps(s: State, es: seq<Event>)
    requires Initial(s) && NestedOn(s.mem) && Sealed(s.mem) && EventsOk(es)
    ensures var m' := GuestRun(s, es).mem;
            SameProtected(s.mem, m') && SameNested(s.mem, m') && Sealed(m') && NestedOn(m')
    ensures Initial(GuestRun(s, es)) && !RunIntrudes(s, es)
    decreases es
  {
    hide After, SameProtected, SameNested, Sealed, VmcbD, VmcbB, EventIntrudes;
    if es == [] {
      NothingChanged(s.mem);
    } else {
      var before, e := es[..|es| - 1], es[|es| - 1];
      SealedRunKeeps(s, before);
      var t := GuestRun(s, before);
      EventKeeps(t, e);
      BothTransitive(s.mem, t.mem, After(t, e).mem);
      SealedAsBefore(s.mem, After(t, e).mem);
      ProtectedFields(s.mem, After(t, e).mem);
    }
  }

  lemma EventKeeps(s: State, e: Event)
    requires Initial(s) && Sealed(s.mem) && (e.Leave? ==> |e.regs| == 14)
    ensures SameProtected(s.mem, After(s, e).mem) && SameNested(s.mem, After(s, e).mem)
    ensures Initial(After(s, e)) && !EventIntrudes(s, e)
  {
    hide Step, SameProtected, SameNested, Framed, Sealed, Written, Intrudes;
    if s.halted {
      NothingChanged(s.mem);
    } else {
      match e
      case Write(w) => WriteKeeps(s.mem, w);
      case Leave(regs, portIn) =>
        var x := Exit(s.mem, regs, portIn);
        StepFrame(Entered(s, x), portIn);
        FramedKeeps(s.mem, After(s, e).mem);
    }
  }

  lemma SameNestedKeepsWalks(m: Mem, m': Mem)
    requires SameProtected(m, m') && SameNested(m, m')
    ensures Kept(m, m')
  {
    hide Walk, SameProtected, SameNested;
    forall p: Dword ensures Walk(m', NESTED_DIR_FINAL, p) == Walk(m, NESTED_DIR_FINAL, p) {
      WalkAsBefore(m, m', p);
    }
  }

  /** So from sealed tables every nested translation, of all 4 GiB, the nested root and the I/O
      permission map's address stay the same for the whole run. */
  lemma NestedTranslationNeverChanges(s: State, es: seq<Event>, p: Dword)
    requires Initial(s) && NestedOn(s.mem) && Sealed(s.mem) && EventsOk(es)
    ensures Walk(GuestRun(s, es).mem, NESTED_DIR_FINAL, p) == Walk(s.mem, NESTED_DIR_FINAL, p)
    ensures VmcbD(GuestRun(s, es).mem, NESTED_CR3) == NESTED_DIR_FINAL
    ensures VmcbD(GuestRun(s, es).mem, IOPM_BASE_PA) == VmcbD(s.mem, IOPM_BASE_PA)
  {
    hide GuestRun, Walk, SameProtected, SameNested, Sealed, RunIntrudes, VmcbD, VmcbB;
    SealedRunKeeps(s, es);
    WalkAsBefore(s.mem, GuestRun(s, es).mem, p);
    ProtectedFields(s.mem, GuestRun(s, es).mem);
  }
}
