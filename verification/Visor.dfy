/** The visor's main loop: one VM exit as a step, and runs of exits with an arbitrary guest in
    between. */
module Visor {
  import opened Memory
  import opened Vmcb
  import opened MachineState
  import opened RealModeStack
  import opened Guest

  const VMEXIT_CR0_READ: Word := 0x00
  const VMEXIT_CR3_READ: Word := 0x03
  const VMEXIT_CR0_WRITE: Word := 0x10
  const VMEXIT_CR3_WRITE: Word := 0x13
  const VMEXIT_EXCEPTION_00: Word := 0x40
  const VMEXIT_EXCEPTION_01: Word := 0x41
  const VMEXIT_EXCEPTION_03: Word := 0x43
  const VMEXIT_EXCEPTION_06: Word := 0x46
  const VMEXIT_EXCEPTION_13: Word := 0x4D
  const VMEXIT_PF: Word := 0x4E
  const VMEXIT_EXCEPTION_31: Word := 0x5F
  const VMEXIT_INTR: Word := 0x60
  const VMEXIT_IRET: Word := 0x74
  const VMEXIT_SWINT: Word := 0x75
  const VMEXIT_HLT: Word := 0x78
  const VMEXIT_IOIO: Word := 0x7B
  const VMEXIT_NPF: Word := 0x400

  /** The low word of the exit code, which is all the dispatcher looks at. */
  function ExitCode(m: Mem): Word { VmcbW(m, EXITCODE) }

  function IntNo(m: Mem): Byte { VmcbD(m, EXITINFO1) % 0x100 }

  /** Done on every exit: the upper half of EVENTINJ zeroed, every clean bit set. */
  function Prepare(m: Mem): Mem {
    hide PutW, PutD;
    PutW(PutD(m, EVENT_VALID, 0), CLEAN_BITS, 0xFFFF)
  }

  /** The interrupts the dispatcher emulates itself: INT 15h AH=88h, and INT 13h AH=08h on the
      first hard disk. */
  predicate Emulates(s: State, n: Byte)
    requires WellFormed(s)
  {
    var ax := VmcbW(s.mem, RAX);
    || (n == 0x15 && ax / 0x100 == 0x88)
    || (n == 0x13 && ax / 0x100 % 0x10 == 8 && s.regs[RAN_EDX] % 0x100 == 0x80)
  }

  /** x | 0xFEFF and x | 0x100. */
  function OrFeff(x: Word): Word { 0xFEFF + x / 0x100 % 2 * 0x100 }

  function Or100(x: Word): Word { x - x / 0x100 % 2 * 0x100 + 0x100 }

  function InterruptExit(s: State, n: Byte): (s': State)
    requires WellFormed(s)
    ensures WellFormed(s')
  {
    hide PutW, VmcbW, RealModeInterrupt, InjectInterrupt, OrFeff, Emulates;
    if Emulates(s, n) then
      var s1 := RealModeInterrupt(s, n);
      var m := PutW(s1.mem, CLEAN_BITS, OrFeff(VmcbW(s1.mem, CLEAN_BITS)));
      s1.(mem := PutW(m, RIP, VmcbW(m, NRIP)))
    else s.(mem := InjectInterrupt(s.mem, n))
  }

  function IretExit(m: Mem): Mem {
    hide PutW, VmcbW, PopFrame, Or100;
    var m1 := PopFrame(m);
    PutW(m1, CLEAN_BITS, Or100(VmcbW(m1, CLEAN_BITS)))
  }

  function Cr0WriteExit(m: Mem): Mem {
    hide PutW, PutD, VmcbD;
    var m1 := PutW(m, CLEAN_BITS, 0xFFDF);
    PutD(m1, RIP, VmcbD(m1, NRIP))
  }

  /** Four exceptions are reflected into the guest, all others dropped; a #GP met while delivering
      an event carries the event's IDT error code and backs up over the two-byte INT. */
  function ExceptionExit(m: Mem, code: Word): Mem {
    hide PutW, PutD, VmcbW, VmcbD;
    if code == VMEXIT_EXCEPTION_01 then PutD(m, EVENTINJ, 0x8000_0000 + 1)
    else if code == VMEXIT_EXCEPTION_03 then PutD(m, EVENTINJ, 0x8000_0000 + 3 * 0x100 + 3)
    else if code == VMEXIT_EXCEPTION_06 then PutD(m, EVENTINJ, 0x8000_0000 + 3 * 0x100 + 6)
    else if code == VMEXIT_EXCEPTION_13 then
      var intInfo, errorCode := VmcbD(m, EXITINTINFO), VmcbD(m, EXITINFO1);
      var m1 := PutD(m, EVENTINJ, 0x8000_0000 + 0x800 + 3 * 0x100 + 13);
      if intInfo >= 0x8000_0000 then
        var m2 := PutD(m1, EVENTINJ + 4, intInfo % 0x100 * 8 + 2);
        PutW(m2, RIP, SubW(VmcbW(m2, RIP), 2))
      else PutD(m1, EVENTINJ + 4, errorCode)
    else m
  }

  predicate IsException(code: Word) {
    VMEXIT_EXCEPTION_00 <= code <= VMEXIT_EXCEPTION_31 && code != VMEXIT_PF
  }

  predicate Halts(m: Mem, code: Word) {
    if code == VMEXIT_HLT then VmcbW(m, RFLAGS) / 0x200 % 2 == 0
    else !(IsException(code) || code in {VMEXIT_NPF, VMEXIT_PF, VMEXIT_SWINT, VMEXIT_INTR, VMEXIT_IRET,
                                         VMEXIT_CR0_READ, VMEXIT_CR3_READ, VMEXIT_CR0_WRITE, VMEXIT_CR3_WRITE,
                                         VMEXIT_IOIO})
  }

  function Dispatch(s: State, code: Word, n: Byte, portIn: Dword): (s': State)
    requires WellFormed(s)
    ensures WellFormed(s')
  {
    hide InterruptExit, IretExit, Cr0Read, Cr3Read, Cr0WriteExit, Cr3Written, GuestIo, ExceptionExit, Halts;
    if code == VMEXIT_SWINT || code == VMEXIT_INTR then InterruptExit(s, n)
    else if code == VMEXIT_IRET then s.(mem := IretExit(s.mem))
    else if code == VMEXIT_CR0_READ then Cr0Read(s)
    else if code == VMEXIT_CR3_READ then Cr3Read(s)
    else if code == VMEXIT_CR0_WRITE then s.(mem := Cr0WriteExit(s.mem))
    else if code == VMEXIT_CR3_WRITE then Cr3Written(s)
    else if code == VMEXIT_IOIO then GuestIo(s, portIn)
    else if IsException(code) then s.(mem := ExceptionExit(s.mem, code))
    else s.(halted := s.halted || Halts(s.mem, code))
  }

  /** One VM exit, handled. */
  function Step(s: State, portIn: Dword): (s': State)
    requires WellFormed(s)
    ensures WellFormed(s')
  {
    hide Dispatch, Prepare, ExitCode, IntNo;
    Dispatch(s.(mem := Prepare(s.mem)), ExitCode(s.mem), IntNo(s.mem), portIn)
  }

  // ----- runs -----

  /** What a VMRUN leaves behind: any memory and any registers; and what the ports would
      return to the exit's handler. */
  datatype Exit = Exit(mem: Mem, regs: seq<Dword>, portIn: Dword)

  ghost predicate ExitsOk(es: seq<Exit>) {
    forall i: nat :: i < |es| ==> |es[i].regs| == 14
  }

  function Entered(s: State, e: Exit): State {
    s.(mem := e.mem, regs := e.regs)
  }

  /** One turn of the loop; once in InfiniteLoop there is no further VMRUN. */
  function Turn(s: State, e: Exit): (s': State)
    requires WellFormed(s) && |e.regs| == 14
    ensures WellFormed(s')
  {
    hide Step;
    if s.halted then s else Step(Entered(s, e), e.portIn)
  }

  function Run(s: State, es: seq<Exit>): (s': State)
    requires WellFormed(s) && ExitsOk(es)
    ensures WellFormed(s')
    decreases es
  {
    hide Turn;
    if es == [] then s else Turn(Run(s, es[..|es| - 1]), es[|es| - 1])
  }

  // ----- the loop itself -----

  method HandleInterruptExit(vm: Machine, n: Byte)
    requires vm.Valid()
    modifies vm.mem, vm.regs
    ensures vm.View() == InterruptExit(old(vm.View()), n)
  {
    hide PutW, PutD, VmcbW, VmcbD, RealModeInterrupt, OrFeff;
    var eax := vm.GetVmcbW(RAX);
    var edx := vm.regs[RAN_EDX];
    if (n == 0x15 && eax / 0x100 == 0x88) || (n == 0x13 && eax / 0x100 % 0x10 == 8 && edx % 0x100 == 0x80) {
      HandleRealModeSwInterrupt(vm, n);
      var clean := vm.GetVmcbW(CLEAN_BITS);
      vm.SetVmcbW(CLEAN_BITS, OrFeff(clean));
      var next := vm.GetVmcbW(NRIP);
      vm.SetVmcbW(RIP, next);
    } else {
      var next := vm.GetVmcbW(NRIP);
      vm.SetVmcbW(RIP, next);
      vm.SetVmcbD(EVENTINJ, 0x8000_0000 + 4 * 0x100 + n);
    }
  }

  method HandleException(vm: Machine, code: Word)
    requires vm.Valid()
    modifies vm.mem
    ensures vm.mem[..] == ExceptionExit(old(vm.mem[..]), code)
  {
    hide PutW, PutD, VmcbW, VmcbD;
    if code == VMEXIT_EXCEPTION_01 {
      vm.SetVmcbD(EVENTINJ, 0x8000_0000 + 1);
    } else if code == VMEXIT_EXCEPTION_03 {
      vm.SetVmcbD(EVENTINJ, 0x8000_0000 + 3 * 0x100 + 3);
    } else if code == VMEXIT_EXCEPTION_06 {
      vm.SetVmcbD(EVENTINJ, 0x8000_0000 + 3 * 0x100 + 6);
    } else if code == VMEXIT_EXCEPTION_13 {
      var intInfo: Dword := vm.GetVmcbD(EXITINTINFO);
      var exceptInfo := vm.GetVmcbD(EXITINFO1);
      vm.SetVmcbD(EVENTINJ, 0x8000_0000 + 0x800 + 3 * 0x100 + 13);
      if intInfo >= 0x8000_0000 {
        intInfo := intInfo % 0x100;
        vm.SetVmcbD(EVENTINJ + 4, intInfo * 8 + 2);
        var ip := vm.GetVmcbW(RIP);
        vm.SetVmcbW(RIP, SubW(ip, 2));
      } else {
        vm.SetVmcbD(EVENTINJ + 4, exceptInfo);
      }
    }
  }

  method HandleExit(vm: Machine, portIn: Dword)
    requires vm.Valid()
    modifies vm, vm.mem, vm.regs
    ensures vm.View() == Step(old(vm.View()), portIn)
  {
    hide PutW, PutD, VmcbW, VmcbD, InterruptExit, ExceptionExit, GuestIo, Cr0Read, Cr3Read, Cr3Written, PopFrame, Or100;
    var code := vm.GetVmcbW(EXITCODE);
    var exitInfo1 := vm.GetVmcbD(EXITINFO1);
    vm.SetVmcbD(EVENT_VALID, 0);
    vm.SetVmcbW(CLEAN_BITS, 0xFFFF);
    if code == VMEXIT_NPF || code == VMEXIT_PF {
      // HandleGuestPagingException returns at once
    } else if code == VMEXIT_SWINT || code == VMEXIT_INTR {
      HandleInterruptExit(vm, exitInfo1 % 0x100);
    } else if code == VMEXIT_IRET {
      HandleInterruptReturn(vm);
      var clean := vm.GetVmcbW(CLEAN_BITS);
      vm.SetVmcbW(CLEAN_BITS, Or100(clean));
    } else if code == VMEXIT_CR0_READ {
      HandleCr0Read(vm);
    } else if code == VMEXIT_CR3_READ {
      HandleCr3Read(vm);
    } else if code == VMEXIT_CR0_WRITE {
      vm.SetVmcbW(CLEAN_BITS, 0xFFDF);
      var next := vm.GetVmcbD(NRIP);
      vm.SetVmcbD(RIP, next);
    } else if code == VMEXIT_CR3_WRITE {
      HandleCr3Write(vm);
    } else if code == VMEXIT_IOIO {
      HandleGuestIo(vm, portIn);
    } else if IsException(code) {
      HandleException(vm, code);
    } else if code == VMEXIT_HLT {
      var flags := vm.GetVmcbW(RFLAGS);
      if flags / 0x200 % 2 == 0 {
        vm.halted := true;
      }
    } else {
      vm.halted := true;
    }
  }

  /** VisorLoop for any finite number of turns; VMRUN is where memory and registers become
      whatever the guest and the processor made of them. */
  method VisorLoop(vm: Machine, es: seq<Exit>)
    requires vm.Valid() && ExitsOk(es) && !vm.halted
    modifies vm, vm.mem, vm.regs
    ensures WellFormed(old(vm.View()))
    ensures vm.View() == Run(old(vm.View()).(regs := old(vm.regs[..])[4 := 0xFFAC][3 := 0xE_0000][2 := 0x80]), es)
  {
    hide Step;
    vm.regs[4] := 0xFFAC;
    vm.regs[3] := 0xE_0000;
    vm.regs[2] := 0x80;
    ghost var s0 := vm.View();
    assert es[..0] == [];
    for i := 0 to |es|
      invariant vm.View() == Run(s0, es[..i])
    {
      assert es[..i + 1][..i] == es[..i] && es[..i + 1][i] == es[i];
      if !vm.halted {
        forall a | 0 <= a < vm.mem.Length { vm.mem[a] := es[i].mem[a]; }
        forall r | 0 <= r < vm.regs.Length { vm.regs[r] := es[i].regs[r]; }
        assert vm.mem[..] == es[i].mem && vm.regs[..] == es[i].regs;
        HandleExit(vm, es[i].portIn);
      }
    }
    assert es[..|es|] == es;
  }
}
