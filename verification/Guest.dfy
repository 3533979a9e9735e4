/** The exit handlers of guest.c that the dispatcher reaches: what each does to the machine,
    and the method that does it in place. */
module Guest {
  import opened Memory
  import opened Paging
  import opened Vmcb
  import opened MachineState
  import opened GuestMemory

  const RAN_EBX: nat := 0
  const RAN_ECX: nat := 1
  const RAN_EDX: nat := 2

  const OPCODE_SMSW: Word := 0x010F

  // ----- register operands of the intercepted instruction -----

  /** The low bytes of a value, zero-extended, as the casts to WORD and BYTE leave it. */
  function Truncate(w: Width, v: Dword): Dword {
    match w case Bits8 => v % 0x100 case Bits16 => v % 0x1_0000 case Bits32 => v
  }

  function CsIp(m: Mem): Dword {
    Add(VmcbD(m, CS_BASE), VmcbD(m, RIP))
  }

  /** The register field as GetGuestMODRegGenRegValue finds it: from the whole CS base. */
  function SourceRegister(m: Mem, offset: Byte): Byte {
    ReadB(m, TranslateGuestPhysicalAddress(m, Add(CsIp(m), offset))) % 8
  }

  /** The register field as SetGuestMODRegGenRegValue finds it: from the low word of the base
      (both arms of its test on CR0 read the same byte). */
  function TargetRegister(m: Mem, offset: Byte): Byte {
    ReadB(m, TranslateGuestPhysicalAddress(m, Add(Add(VmcbW(m, CS_BASE), VmcbD(m, RIP)), offset))) % 8
  }

  /** Index in GuestRegisters of the registers the VMCB does not hold. */
  function RegisterIndex(reg: Byte): nat
    requires reg < 8
  {
    if reg == 3 then 0 else if reg == 1 then 1 else if reg == 2 then 2
    else if reg == 6 then 3 else if reg == 7 then 4 else 5
  }

  function GetRegister(s: State, offset: Byte, w: Width): Dword
    requires WellFormed(s)
  {
    var reg := SourceRegister(s.mem, offset);
    if reg == 0 then Read(s.mem, w, VMCB_FINAL + RAX)
    else if reg == 4 then Read(s.mem, w, VMCB_FINAL + RSP)
    else Truncate(w, s.regs[RegisterIndex(reg)])
  }

  /** The ESP encoding writes RIP, as the source does. */
  function SetRegister(s: State, offset: Byte, v: Dword, w: Width): (s': State)
    requires WellFormed(s)
    ensures WellFormed(s')
  {
    var reg := TargetRegister(s.mem, offset);
    if reg == 0 then s.(mem := Write(s.mem, w, VMCB_FINAL + RAX, v))
    else if reg == 4 then s.(mem := Write(s.mem, w, VMCB_FINAL + RIP, v))
    else s.(regs := s.regs[RegisterIndex(reg) := Truncate(w, v)])
  }

  function AdvanceIp(m: Mem, count: Byte): Mem {
    PutW(m, RIP, AddW(VmcbW(m, RIP), count))
  }

  function Cr3Written(s: State): (s': State)
    requires WellFormed(s)
    ensures WellFormed(s')
  {
    var v := GetRegister(s, 2, Bits32);
    var m := if s.pmode && s.paging && s.requestedCr0 > 0 then PutD(s.mem, SAVE_STATE_CR3, v) else s.mem;
    s.(requestedCr3 := v, mem := AdvanceIp(m, 3))
  }

  function Cr0Read(s: State): (s': State)
    requires WellFormed(s)
    ensures WellFormed(s')
  {
    var instruction := ReadW(s.mem, TranslateGuestPhysicalAddress(s.mem, CsIp(s.mem)));
    var s1 := SetRegister(s, 2, s.requestedCr0, if instruction == OPCODE_SMSW then Bits16 else Bits32);
    s1.(mem := AdvanceIp(s1.mem, 3))
  }

  function Cr3Read(s: State): (s': State)
    requires WellFormed(s)
    ensures WellFormed(s')
  {
    var s1 := SetRegister(s, 2, if s.pmode && s.paging then s.requestedCr3 else 0, Bits32);
    s1.(mem := AdvanceIp(s1.mem, 3))
  }

  method GetGuestModRegGenRegValue(vm: Machine, offset: Byte, w: Width) returns (v: Dword)
    requires vm.Valid()
    ensures v == GetRegister(vm.View(), offset, w)
  {
    hide ReadB, ReadW, ReadD, TranslateGuestPhysicalAddress, Add;
    var csBase := vm.GetVmcbD(CS_BASE);
    var rip := vm.GetVmcbD(RIP);
    var modRm := vm.GetMemB(Add(Add(csBase, rip), offset), true);
    var reg := modRm % 8;
    if reg == 0 || reg == 4 {
      var f := if reg == 0 then RAX else RSP;
      match w
      case Bits32 => v := vm.GetVmcbD(f);
      case Bits16 => v := vm.GetVmcbW(f);
      case Bits8 => v := vm.GetVmcbB(f);
    } else {
      v := Truncate(w, vm.regs[RegisterIndex(reg)]);
    }
  }

  method SetGuestModRegGenRegValue(vm: Machine, offset: Byte, v: Dword, w: Width)
    requires vm.Valid()
    modifies vm.mem, vm.regs
    ensures vm.View() == SetRegister(old(vm.View()), offset, v, w)
  {
    hide ReadB, ReadW, ReadD, WriteB, WriteW, WriteD, TranslateGuestPhysicalAddress, Add;
    var csBase := vm.GetVmcbW(CS_BASE);
    var rip := vm.GetVmcbD(RIP);
    var modRm := vm.GetMemB(Add(Add(csBase, rip), offset), true);
    var reg := modRm % 8;
    if reg == 0 || reg == 4 {
      var f := if reg == 0 then RAX else RIP;
      match w
      case Bits32 => vm.SetVmcbD(f, v);
      case Bits16 => vm.SetVmcbW(f, v % 0x1_0000);
      case Bits8 => vm.SetVmcbB(f, v % 0x100);
    } else {
      vm.regs[RegisterIndex(reg)] := Truncate(w, v);
    }
  }

  method IncrementGuestIp(vm: Machine, count: Byte)
    requires vm.Valid()
    modifies vm.mem
    ensures vm.mem[..] == AdvanceIp(old(vm.mem[..]), count)
  {
    hide PutW, VmcbW, AddW;
    var ip := vm.GetVmcbW(RIP);
    vm.SetVmcbW(RIP, AddW(ip, count));
  }

  method HandleCr3Write(vm: Machine)
    requires vm.Valid()
    modifies vm, vm.mem
    ensures vm.View() == Cr3Written(old(vm.View()))
  {
    hide PutW, PutD, AdvanceIp, GetRegister;
    vm.requestedCr3 := GetGuestModRegGenRegValue(vm, 2, Bits32);
    if vm.pmode && vm.paging && vm.requestedCr0 > 0 {
      vm.SetVmcbD(SAVE_STATE_CR3, vm.requestedCr3);
    }
    IncrementGuestIp(vm, 3);
  }

  method HandleCr0Read(vm: Machine)
    requires vm.Valid()
    modifies vm.mem, vm.regs
    ensures vm.View() == Cr0Read(old(vm.View()))
  {
    hide AdvanceIp, SetRegister, ReadW, ReadD, TranslateGuestPhysicalAddress, Add;
    var csBase := vm.GetVmcbD(CS_BASE);
    var rip := vm.GetVmcbD(RIP);
    var instruction := vm.GetMemW(Add(csBase, rip), true);
    if instruction == OPCODE_SMSW {
      SetGuestModRegGenRegValue(vm, 2, vm.requestedCr0, Bits16);
    } else {
      SetGuestModRegGenRegValue(vm, 2, vm.requestedCr0, Bits32);
    }
    IncrementGuestIp(vm, 3);
  }

  method HandleCr3Read(vm: Machine)
    requires vm.Valid()
    modifies vm.mem, vm.regs
    ensures vm.View() == Cr3Read(old(vm.View()))
  {
    hide AdvanceIp, SetRegister;
    if vm.pmode && vm.paging {
      SetGuestModRegGenRegValue(vm, 2, vm.requestedCr3, Bits32);
    } else {
      SetGuestModRegGenRegValue(vm, 2, 0, Bits32);
    }
    IncrementGuestIp(vm, 3);
  }

  // ----- BIOS interrupts -----

  /** Extended memory in whole KiB for a machine of the given size. */
  function ExtendedKb(size: Dword): (kb: int)
    ensures 0x400 * kb + 0x10_0000 <= size < 0x400 * (kb + 1) + 0x10_0000
  {
    (size - 0x10_0000) / 0x400
  }

  function ClearCarry(m: Mem): Mem {
    PutD(m, RFLAGS, VmcbD(m, RFLAGS) - VmcbD(m, RFLAGS) % 2)
  }

  function SetCarry(m: Mem): Mem {
    PutD(m, RFLAGS, VmcbD(m, RFLAGS) - VmcbD(m, RFLAGS) % 2 + 1)
  }

  /** Skip the instruction and have the processor deliver software interrupt n. */
  function InjectInterrupt(m: Mem, n: Byte): Mem {
    var m1 := PutW(m, RIP, VmcbW(m, NRIP));
    PutD(m1, EVENTINJ, 0x8000_0000 + 4 * 0x100 + n)
  }

  function RealModeInterrupt(s: State, vector: Word): (s': State)
    requires WellFormed(s)
    ensures WellFormed(s')
  {
    hide PutW, PutD, VmcbW, VmcbD;
    var m := s.mem;
    var ax := VmcbW(m, RAX);
    if vector == 0x11 then s.(mem := PutW(m, RAX, 0x0122))
    else if vector == 0x12 then s.(mem := PutW(m, RAX, 0x27F))
    else if vector == 0x13 && ax / 0x800 % 2 == 1 then
      s.(mem := ClearCarry(PutW(m, RAX, 0)), regs := s.regs[RAN_EBX := 0][RAN_ECX := 0x037F][RAN_EDX := 0x0F01])
    else if vector == 0x15 && ax / 0x100 == 0x88 then
      s.(mem := ClearCarry(PutW(m, RAX, ExtendedKb(GUEST_MEMORY_SIZE))))
    else if vector == 0x15 && (ax == 0xE820 || ax == 0xE802 || ax == 0xE801) then
      s.(mem := SetCarry(PutW(m, RAX, 0x8600 + ax % 0x100)))
    else s.(mem := InjectInterrupt(m, vector % 0x100))
  }

  method HandleRealModeSwInterrupt(vm: Machine, vector: Word)
    requires vm.Valid()
    modifies vm.mem, vm.regs
    ensures vm.View() == RealModeInterrupt(old(vm.View()), vector)
  {
    hide PutW, PutD, VmcbW, VmcbD;
    var ax := vm.GetVmcbW(RAX);
    var inject := false;
    if vector == 0x11 {
      vm.SetVmcbW(RAX, 0x0122);
    } else if vector == 0x12 {
      vm.SetVmcbW(RAX, 0x27F);
    } else if vector == 0x13 {
      if ax / 0x800 % 2 == 1 {
        vm.SetVmcbW(RAX, 0);
        vm.regs[RAN_EBX] := 0;
        vm.regs[RAN_ECX] := 0x037F;
        vm.regs[RAN_EDX] := 0x0F01;
        ClearGuestCarryFlag(vm);
      } else {
        inject := true;
      }
    } else if vector == 0x15 {
      if ax / 0x100 == 0x88 {
        vm.SetVmcbW(RAX, (GUEST_MEMORY_SIZE - 0x10_0000) / 0x400);
        ClearGuestCarryFlag(vm);
      } else if ax == 0xE820 || ax == 0xE802 || ax == 0xE801 {
        vm.SetVmcbW(RAX, 0x8600 + ax % 0x100);
        var flags := vm.GetVmcbD(RFLAGS);
        vm.SetVmcbD(RFLAGS, flags - flags % 2 + 1);
      } else {
        inject := true;
      }
    } else {
      inject := true;
    }
    if inject {
      var next := vm.GetVmcbW(NRIP);
      vm.SetVmcbW(RIP, next);
      vm.SetVmcbD(EVENTINJ, 0x8000_0000 + 4 * 0x100 + vector % 0x100);
    }
  }

  method ClearGuestCarryFlag(vm: Machine)
    requires vm.Valid()
    modifies vm.mem
    ensures vm.mem[..] == ClearCarry(old(vm.mem[..]))
  {
    hide PutD, VmcbD;
    var flags := vm.GetVmcbD(RFLAGS);
    vm.SetVmcbD(RFLAGS, flags - flags % 2);
  }

  // ----- port I/O -----

  /** The fields of an IOIO exit (APM Volume 2, section 15.10.2). */
  function IoPort(m: Mem): Word { VmcbD(m, EXITINFO1) / 0x1_0000 }

  predicate IoIsIn(m: Mem) { VmcbD(m, EXITINFO1) % 2 == 1 }

  function IoWidth(m: Mem): Width {
    if VmcbD(m, EXITINFO1) / 0x10 % 2 == 1 then Bits8
    else if VmcbD(m, EXITINFO1) / 0x20 % 2 == 1 then Bits16 else Bits32
  }

  predicate CmosIndex(al: Byte) { al == 0x17 || al == 0x18 }

  /** CMOS registers 17h and 18h: low and high byte of the extended memory size. */
  function CmosByte(size: Dword, index: Byte): Byte {
    if index == 0x17 then ExtendedKb(size) % 0x100 else ExtendedKb(size) / 0x100 % 0x100
  }

  /** Byte k of a forwarded OUT: masked, cast to a byte, and only then shifted down. */
  function OutByte(v: Dword, k: nat): Byte
    requires k < 4
  {
    if k == 0 then v % 0x100
    else if k == 1 then ByteOf(v, 1) * 0x100 % 0x100 / 0x100
    else if k == 2 then ByteOf(v, 2) * 0x1_0000 % 0x100 / 0x1_0000
    else ByteOf(v, 3) * 0x100_0000 % 0x100 / 0x100_0000
  }

  function ForwardedOut(port: Word, w: Width, v: Dword): seq<PortWrite> {
    hide OutByte;
    var b0 := PortWrite(port, OutByte(v, 0));
    match w
    case Bits8 => [b0]
    case Bits16 => [b0, PortWrite(AddW(port, 1), OutByte(v, 1))]
    case Bits32 =>
      [b0, PortWrite(AddW(port, 1), OutByte(v, 1)), PortWrite(AddW(port, 2), OutByte(v, 2)),
       PortWrite(AddW(port, 3), OutByte(v, 3))]
  }

  /** portIn is what the four ports from IoPort on would return. */
  function IoTransfer(s: State, portIn: Dword): State {
    var m := s.mem;
    var port, w, eax := IoPort(m), IoWidth(m), VmcbD(m, RAX);
    if port == 0x70 && IoIsIn(m) then s
    else if port == 0x70 && CmosIndex(eax % 0x100) then
      s.(inValue := CmosByte(GUEST_MEMORY_SIZE, eax % 0x100), inValueSet := true)
    else if port == 0x71 && IoIsIn(m) && s.inValueSet then
      s.(mem := PutB(m, RAX, s.inValue), inValue := 0, inValueSet := false)
    else if IoIsIn(m) then s.(mem := Write(m, w, VMCB_FINAL + RAX, portIn))
    else s.(outs := s.outs + ForwardedOut(port, w, eax))
  }

  function GuestIo(s: State, portIn: Dword): (s': State)
    requires WellFormed(s)
    ensures WellFormed(s')
  {
    hide IoPort, IoIsIn, IoWidth, ForwardedOut, Write, PutB, PutW, VmcbW, VmcbD, CmosByte;
    var s1 := IoTransfer(s, portIn);
    s1.(mem := PutW(s1.mem, RIP, VmcbW(s1.mem, EXITINFO2)))
  }

  method HandleGuestIo(vm: Machine, portIn: Dword)
    requires vm.Valid()
    modifies vm, vm.mem
    ensures vm.View() == GuestIo(old(vm.View()), portIn)
  {
    hide PutB, PutW, PutD, VmcbB, VmcbW, VmcbD, ForwardedOut, CmosByte, WriteB, WriteW, WriteD;
    ghost var s0 := vm.View();
    DoTransfer(vm, portIn);
    var next := vm.GetVmcbW(EXITINFO2);
    vm.SetVmcbW(RIP, next);
  }

  /** The body of HandleGuestIO up to its common exit label. */
  method DoTransfer(vm: Machine, portIn: Dword)
    requires vm.Valid()
    modifies vm, vm.mem
    ensures vm.View() == IoTransfer(old(vm.View()), portIn)
  {
    hide VmcbB, VmcbW, WriteB, WriteW, WriteD, ReadD, ForwardedOut;
    var exitInfo1 := vm.GetVmcbD(EXITINFO1);
    var port: Word := exitInfo1 / 0x1_0000;
    var directionIn := exitInfo1 % 2 == 1;
    var sz8, sz16 := exitInfo1 / 0x10 % 2 == 1, exitInfo1 / 0x20 % 2 == 1;
    if port == 0x70 {
      if directionIn {
        return;
      }
      var eax := vm.GetVmcbD(RAX);
      if eax % 0x100 == 0x17 {
        vm.inValue := (GUEST_MEMORY_SIZE - 0x10_0000) / 0x400 % 0x100;
        vm.inValueSet := true;
        return;
      } else if eax % 0x100 == 0x18 {
        vm.inValue := (GUEST_MEMORY_SIZE - 0x10_0000) / 0x400 / 0x100 % 0x100;
        vm.inValueSet := true;
        return;
      }
    } else if port == 0x71 && directionIn && vm.inValueSet {
      vm.SetVmcbB(RAX, vm.inValue);
      vm.inValue := 0;
      vm.inValueSet := false;
      return;
    }
    if directionIn {
      if sz8 {
        vm.SetVmcbB(RAX, portIn % 0x100);
      } else if sz16 {
        vm.SetVmcbW(RAX, portIn % 0x1_0000);
      } else {
        vm.SetVmcbD(RAX, portIn);
      }
    } else {
      var eax := vm.GetVmcbD(RAX);
      ForwardOut(vm, port, sz8, sz16, eax);
    }
  }

  method ForwardOut(vm: Machine, port: Word, sz8: bool, sz16: bool, eax: Dword)
    modifies vm`outs
    ensures vm.outs == old(vm.outs) + ForwardedOut(port, if sz8 then Bits8 else if sz16 then Bits16 else Bits32, eax)
  {
    hide OutByte, AddW;
    Outb(vm, port, OutByte(eax, 0));
    if !sz8 {
      Outb(vm, AddW(port, 1), OutByte(eax, 1));
      if !sz16 {
        Outb(vm, AddW(port, 2), OutByte(eax, 2));
        Outb(vm, AddW(port, 3), OutByte(eax, 3));
      }
    }
    assert vm.outs == old(vm.outs) + ForwardedOut(port, if sz8 then Bits8 else if sz16 then Bits16 else Bits32, eax);
  }

  /** outb: the byte reaches the real port. */
  method Outb(vm: Machine, port: Word, value: Byte)
    modifies vm`outs
    ensures vm.outs == old(vm.outs) + [PortWrite(port, value)]
  {
    vm.outs := vm.outs + [PortWrite(port, value)];
  }
}
