/** Real-mode INT and IRET emulation on the guest's stack: what the two routines do to
    memory, and the methods that do it in place. */
module RealModeStack {
  import opened Memory
  import opened Paging
  import opened Vmcb
  import opened MachineState

  /** flags & 0xFDFF & 0xFEFF: IF (bit 9) and TF (bit 8) cleared. */
  function ClearIfTf(flags: Word): Word {
    flags - flags / 0x100 % 4 * 0x100
  }

  /** (flags | 0x200) & 0xFEFF: IF set, TF cleared. */
  function SetIfClearTf(flags: Word): Word {
    ClearIfTf(flags) + 0x200
  }

  function GuestW(m: Mem, a: Dword): Word {
    ReadW(m, TranslateGuestPhysicalAddress(m, a))
  }

  function PutGuestW(m: Mem, a: Dword, v: Word): Mem {
    WriteW(m, TranslateGuestPhysicalAddress(m, a), v)
  }

  function PushFrame(m: Mem, cs: Dword, ip: Word, flags: Word): Mem {
    var m1 := PutW(m, RSP, Sub(VmcbD(m, RSP), 6) % 0x1_0000);
    var top := Add(VmcbW(m, SS_BASE), VmcbD(m1, RSP));
    var m2 := PutGuestW(m1, Add(top, 4), flags);
    var m3 := PutGuestW(m2, Add(top, 2), cs / 0x10 % 0x1_0000);
    var m4 := PutGuestW(m3, top, ip);
    PutW(m4, RFLAGS, ClearIfTf(flags))
  }

  function PopFrame(m: Mem): Mem {
    var top := Add(VmcbW(m, SS_BASE), VmcbW(m, RSP));
    var m1 := PutW(m, RFLAGS, SetIfClearTf(GuestW(m, Add(top, 4))));
    var m2 := PutD(m1, CS_BASE, GuestW(m1, Add(top, 2)) * 0x10);
    var m3 := PutW(m2, RIP, GuestW(m2, top));
    PutW(m3, RSP, AddW(VmcbW(m3, RSP), 6))
  }

  function SoftwareInterrupt(m: Mem, vector: Byte): Mem {
    var m1 := PushFrame(m, VmcbW(m, CS_BASE), AddW(VmcbW(m, RIP), 2), VmcbW(m, RFLAGS));
    var m2 := PutD(m1, CS_BASE, GuestW(m1, vector * 4 + 2) * 0x10);
    PutW(m2, RIP, GuestW(m2, vector * 4))
  }

  method PushCsIpFlagsOntoGuestStackReal16(vm: Machine, cs: Dword, ip: Word, flags: Word)
    requires vm.Valid()
    modifies vm.mem
    ensures vm.mem[..] == PushFrame(old(vm.mem[..]), cs, ip, flags)
  {
    hide PutW, WriteW, ReadD, ReadW, TranslateGuestPhysicalAddress, Add, Sub, ClearIfTf;
    var base := vm.GetVmcbW(SS_BASE);
    var rsp := vm.GetVmcbD(RSP);
    vm.SetVmcbW(RSP, Sub(rsp, 6) % 0x1_0000);
    rsp := vm.GetVmcbD(RSP);
    var top := Add(base, rsp);
    vm.SetMemW(Add(top, 4), flags, true);
    vm.SetMemW(Add(top, 2), cs / 0x10 % 0x1_0000, true);
    vm.SetMemW(top, ip, true);
    vm.SetVmcbW(RFLAGS, ClearIfTf(flags));
  }

  method PopCsIpFlagsOffGuestStackReal16(vm: Machine)
    requires vm.Valid()
    modifies vm.mem
    ensures vm.mem[..] == PopFrame(old(vm.mem[..]))
  {
    hide PutW, PutD, WriteW, WriteD, ReadD, ReadW, TranslateGuestPhysicalAddress, Add, AddW, SetIfClearTf;
    var base := vm.GetVmcbW(SS_BASE);
    var sp := vm.GetVmcbW(RSP);
    var top := Add(base, sp);
    var newFlags := vm.GetMemW(Add(top, 4), true);
    vm.SetVmcbW(RFLAGS, SetIfClearTf(newFlags));
    var newCs: Dword := vm.GetMemW(Add(top, 2), true);
    vm.SetVmcbD(CS_BASE, newCs * 0x10);
    var newIp := vm.GetMemW(top, true);
    vm.SetVmcbW(RIP, newIp);
    sp := vm.GetVmcbW(RSP);
    vm.SetVmcbW(RSP, AddW(sp, 6));
  }

  method UpdateGuestForSoftwareInterrupt(vm: Machine, vector: Byte)
    requires vm.Valid()
    modifies vm.mem
    ensures vm.mem[..] == SoftwareInterrupt(old(vm.mem[..]), vector)
  {
    hide PutW, PutD, WriteW, WriteD, ReadD, ReadW, TranslateGuestPhysicalAddress, PushFrame, AddW;
    var cs := vm.GetVmcbW(CS_BASE);
    var ip := vm.GetVmcbW(RIP);
    var flags := vm.GetVmcbW(RFLAGS);
    PushCsIpFlagsOntoGuestStackReal16(vm, cs, AddW(ip, 2), flags);
    var newCs: Dword := vm.GetMemW(vector * 4 + 2, true);
    vm.SetVmcbD(CS_BASE, newCs * 0x10);
    var newIp := vm.GetMemW(vector * 4, true);
    vm.SetVmcbW(RIP, newIp);
  }

  method HandleInterruptReturn(vm: Machine)
    requires vm.Valid()
    modifies vm.mem
    ensures vm.mem[..] == PopFrame(old(vm.mem[..]))
  {
    PopCsIpFlagsOffGuestStackReal16(vm);
  }
}
