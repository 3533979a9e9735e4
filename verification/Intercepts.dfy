/** Which exits can happen: the intercept bits SetupVMCB sets, against the cases of the
    dispatcher. */
module Intercepts {
  import opened Memory
  import opened Paging
  import opened Vmcb
  import opened MachineState
  import opened Bits
  import opened Visor
  import opened Runs
  import opened Tables
  import opened Confinement

  const VMEXIT_SHUTDOWN: Word := 0x7F
  const VMEXIT_VMRUN: Word := 0x80
  const INTERCEPT_BYTES: int := 0x14

  /** The intercept vectors open the VMCB, and bit c of their 160 bits enables exit code c (APM
      Volume 2, Appendices B and C). */
  ghost predicate Intercepted(m: Mem, base: Dword, c: int) {
    && base + INTERCEPT_BYTES <= MEM_SIZE && 0 <= c < 8 * INTERCEPT_BYTES
    && m[base + c / 8] / Pow2(c % 8) % 2 == 1
  }

  /** What SetupVMCB leaves in a block whose other intercept bytes were zero: #GP, INTn, HLT,
      shutdown, the SVM instructions and RDTSCP. */
  function InterceptByte(i: int): Byte {
    if i == 9 || i == 0xE then 0x20 else if i == 0xF then 0x81 else if i == 0x10 then 0xFF else 0
  }

  ghost predicate InterceptsSet(m: Mem, base: Dword) {
    && base + INTERCEPT_BYTES <= MEM_SIZE
    && forall i: int {:trigger InterceptByte(i)} :: 0 <= i < INTERCEPT_BYTES ==> m[base + i] == InterceptByte(i)
  }

  /** The bytes SetupVMCB does not write, and the one it only adds to, are zero. */
  ghost predicate RestClear(m: Mem, base: Dword) {
    && base + INTERCEPT_BYTES <= MEM_SIZE
    && forall a: Dword {:trigger m[a]} ::
         base <= a < base + INTERCEPT_BYTES && a - base in {1, 3, 4, 5, 6, 7, 0xD, 0xE, 0x11, 0x12, 0x13} ==> m[a] == 0
  }

  /** x |= y on a byte. */
  function OrByte(x: Byte, y: Byte): Byte {
    assert Or(x, y) < 0x100 by {
      assert Pow2(8) == 0x100;
      OrSplit(8, 0, x, 0, y);
    }
    Or(x, y)
  }

  /** The intercept bytes SetupVMCB writes; to 0Eh it only adds RDTSCP's bit. */
  predicate Stored(i: int) { i == 0 || i == 2 || 8 <= i <= 0xC || 0xE <= i <= 0x10 }

  /** m' is m after the stores. */
  ghost predicate InterceptsStored(m: Mem, m': Mem) {
    && (forall i: int {:trigger InterceptByte(i)} ::
          0 <= i && Stored(i) && i != 0xE ==> m'[VMCB_START + i] == InterceptByte(i))
    && m'[VMCB_START + 0xE] == OrByte(m[VMCB_START + 0xE], 0x20)
    && (forall a: Dword {:trigger m'[a]} :: !Stored(a - VMCB_START) ==> m'[a] == m[a])
  }

  lemma StoredOverZeros(m: Mem, m': Mem)
    requires InterceptsStored(m, m') && RestClear(m, VMCB_START)
    ensures InterceptsSet(m', VMCB_START)
  {
    hide Or;
    OrStepZero(0x20);
    forall i: int | 0 <= i < INTERCEPT_BYTES ensures m'[VMCB_START + i] == InterceptByte(i) {
      assert m[VMCB_START + i] == m[VMCB_START + i];
    }
  }

  /** The intercept stores of SetupVMCB, in order. */
  method SetupIntercepts(vm: Machine)
    requires vm.Valid()
    modifies vm.mem
    ensures InterceptsStored(old(vm.mem[..]), vm.mem[..])
    ensures RestClear(old(vm.mem[..]), VMCB_START) ==> InterceptsSet(vm.mem[..], VMCB_START)
  {
    ghost var m := vm.mem[..];
    StoreIntercepts(vm);
    if RestClear(m, VMCB_START) {
      StoredOverZeros(m, vm.mem[..]);
    }
  }

  /** The stores up to 0Ch, and those behind. */
  method StoreIntercepts(vm: Machine)
    requires vm.Valid()
    modifies vm.mem
    ensures InterceptsStored(old(vm.mem[..]), vm.mem[..])
  {
    hide OrByte;
    AddedOnce(vm.mem[VMCB_START + 0xE]);
    StoreVectors(vm);
    AddInstructions(vm);
  }

  method StoreVectors(vm: Machine)
    requires vm.Valid()
    modifies vm.mem
    ensures forall i: int {:trigger InterceptByte(i)} ::
              0 <= i <= 0xC && Stored(i) ==> vm.mem[VMCB_START + i] == InterceptByte(i)
    ensures forall a: Dword {:trigger vm.mem[a]} ::
              !Stored(a - VMCB_START) || VMCB_START + 0xD <= a ==> vm.mem[a] == old(vm.mem[a])
  {
    vm.mem[VMCB_START + 2] := 0;
    vm.mem[VMCB_START] := 0;
    vm.mem[VMCB_START + 8] := 0;
    vm.mem[VMCB_START + 9] := 0x20;
    vm.mem[VMCB_START + 0xA] := 0;
    vm.mem[VMCB_START + 0xB] := 0;
    vm.mem[VMCB_START + 0xC] := 0;
  }

  method AddInstructions(vm: Machine)
    requires vm.Valid()
    modifies vm.mem
    ensures vm.mem[VMCB_START + 9] == OrByte(old(vm.mem[VMCB_START + 9]), 0x20)
    ensures vm.mem[VMCB_START + 0xE] == OrByte(OrByte(old(vm.mem[VMCB_START + 0xE]), 0x20), 0)
    ensures vm.mem[VMCB_START + 0xF] == 0x81 && vm.mem[VMCB_START + 0x10] == 0xFF
    ensures forall a: Dword {:trigger vm.mem[a]} ::
              a != VMCB_START + 9 && (a < VMCB_START + 0xE || VMCB_START + 0x10 < a) ==> vm.mem[a] == old(vm.mem[a])
  {
    hide OrByte;
    vm.mem[VMCB_START + 0xE] := OrByte(vm.mem[VMCB_START + 0xE], 0x20);
    vm.mem[VMCB_START + 0xE] := OrByte(vm.mem[VMCB_START + 0xE], 0);
    vm.mem[VMCB_START + 0xF] := OrByte(vm.mem[VMCB_START + 0xF], 1);
    vm.mem[VMCB_START + 0xF] := OrByte(vm.mem[VMCB_START + 0xF], 0);
    vm.mem[VMCB_START + 0xF] := 0x81;
    vm.mem[VMCB_START + 0x10] := 0xFF;
    vm.mem[VMCB_START + 9] := OrByte(vm.mem[VMCB_START + 9], 0x20);
  }

  lemma AddedOnce(b: Byte)
    ensures OrByte(OrByte(b, 0x20), 0) == OrByte(b, 0x20) && OrByte(0x20, 0x20) == 0x20
  {
    hide Or;
    OrStepZero(OrByte(b, 0x20));
    SameBits(0x20);
  }

  lemma OrStepZero(x: nat)
    ensures Or(0, x) == x && Or(x, 0) == x
  {
  }

  /** Oring a value into itself changes nothing. */
  lemma {:induction false} SameBits(x: nat)
    ensures Or(x, x) == x
  {
    if x > 0 {
      SameBits(x / 2);
    }
  }

  /** The exit codes those bits enable. */
  predicate Enabled(c: int) {
    || c == VMEXIT_EXCEPTION_13 || c == VMEXIT_SWINT || c == VMEXIT_HLT || c == VMEXIT_SHUTDOWN
    || VMEXIT_VMRUN <= c < VMEXIT_VMRUN + 8
  }

  lemma EnabledExits(m: Mem, base: Dword, c: int)
    requires InterceptsSet(m, base) && 0 <= c < 8 * INTERCEPT_BYTES
    ensures Intercepted(m, base, c) <==> Enabled(c)
  {
    var i, j := c / 8, c % 8;
    assert m[base + i] == InterceptByte(i);
    assert Pow2(0) == 1 && Pow2(1) == 2 && Pow2(2) == 4 && Pow2(3) == 8 && Pow2(4) == 0x10 && Pow2(5) == 0x20 &&
           Pow2(6) == 0x40 && Pow2(7) == 0x80;
  }

  /** Why the processor left the guest, once it has entered it: an intercepted event, or a nested
      page fault. */
  ghost predicate Raised(m: Mem) {
    ExitCode(m) == VMEXIT_NPF || Intercepted(m, VMCB_FINAL, ExitCode(m))
  }

  lemma InterceptsMoved(m: Mem, m': Mem)
    requires Relocated(m, m') && InterceptsSet(m, VMCB_START)
    ensures InterceptsSet(m', VMCB_FINAL)
  {
    hide DirDone;
    forall i: int | 0 <= i < INTERCEPT_BYTES ensures m'[VMCB_FINAL + i] == InterceptByte(i) {
      assert m[VMCB_START + i] == InterceptByte(i);
    }
  }

  /** Under SetupVMCB's intercepts an exit stops the machine exactly when it is a shutdown, one of
      the SVM instructions or RDTSCP, or a HLT with interrupts off; the rest are #GP, INTn and nested
      page faults.  No exit for IRET, a port or a control register ever comes. */
  lemma RaisedExits(s: State, portIn: Dword)
    requires WellFormed(s) && !s.halted && InterceptsSet(s.mem, VMCB_FINAL) && Raised(s.mem)
    ensures var code := ExitCode(s.mem);
            && (code == VMEXIT_NPF || Enabled(code))
            && (Step(s, portIn).halted <==>
                || code == VMEXIT_SHUTDOWN || VMEXIT_VMRUN <= code < VMEXIT_VMRUN + 8
                || (code == VMEXIT_HLT && VmcbW(s.mem, RFLAGS) / 0x200 % 2 == 0))
  {
    hide Step, ExitCode, VmcbW, InterceptsSet;
    HaltsExactlyWhen(s, portIn);
    if ExitCode(s.mem) != VMEXIT_NPF {
      EnabledExits(s.mem, VMCB_FINAL, ExitCode(s.mem));
    }
  }

  /** And from sealed tables they stay SetupVMCB's for the whole run, byte for byte, whatever the
      guest does. */
  lemma InterceptsNeverChange(s: State, es: seq<Event>)
    requires Initial(s) && NestedOn(s.mem) && Sealed(s.mem) && EventsOk(es)
    requires InterceptsSet(s.mem, VMCB_FINAL)
    ensures InterceptsSet(GuestRun(s, es).mem, VMCB_FINAL)
  {
    hide GuestRun, Sealed, SameNested, RunIntrudes, NestedOn;
    SealedRunKeeps(s, es);
    forall i: int | 0 <= i < INTERCEPT_BYTES
      ensures GuestRun(s, es).mem[VMCB_FINAL + i] == InterceptByte(i)
    {
      assert s.mem[VMCB_FINAL + i] == InterceptByte(i) && Protected(VMCB_FINAL + i);
    }
  }
}
