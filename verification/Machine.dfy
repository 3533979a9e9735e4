/** The machine the visor runs on: physical memory, the saved guest registers and the
    visor's own variables, all updated in place. */
module MachineState {
  import opened Memory
  import opened Paging
  import opened Vmcb

  const GUEST_INITIAL_CR0: Dword := 0x10

  /** A byte the visor sends to a real port. */
  datatype PortWrite = PortWrite(port: Word, value: Byte)

  /** The machine's contents as one value. */
  datatype State = State(
    mem: Mem,
    regs: seq<Dword>,
    pmode: bool, paging: bool,
    requestedCr3: Dword, requestedCr0: Dword,
    inValue: Byte, inValueSet: bool,
    halted: bool,
    outs: seq<PortWrite>)

  ghost predicate WellFormed(s: State) {
    |s.regs| == 14
  }

  class Machine {
    const mem: array<Byte>
    const regs: array<Dword>           // GuestRegisters
    var pmode: bool                    // GuestPModeFlag
    var paging: bool                   // GuestPagingFlag
    var requestedCr3: Dword            // GuestRequestedCR3
    var requestedCr0: Dword            // GuestRequestedCR0
    var inValue: Byte                  // IOPortInValue
    var inValueSet: bool               // IOPortInValueSet
    var halted: bool                   // in InfiniteLoop
    ghost var outs: seq<PortWrite>     // every outb so far

    ghost predicate Valid() {
      mem.Length == 0x1_0000_0000 && regs.Length == 14 && mem as object != regs
    }

    ghost function View(): State
      requires Valid()
      reads this, mem, regs
    {
      State(mem[..], regs[..], pmode, paging, requestedCr3, requestedCr0, inValue, inValueSet, halted, outs)
    }

    /** The initial values of the visor's variables; memory and registers are arbitrary. */
    constructor ()
      ensures Valid() && fresh(mem) && fresh(regs)
      ensures !pmode && !paging && requestedCr3 == GUEST_CR3_VALUE && requestedCr0 == GUEST_INITIAL_CR0
      ensures inValue == 0 && !inValueSet && !halted && outs == []
    {
      mem := new Byte[0x1_0000_0000];
      regs := new Dword[14];
      pmode, paging, requestedCr3, requestedCr0 := false, false, GUEST_CR3_VALUE, GUEST_INITIAL_CR0;
      inValue, inValueSet, halted, outs := 0, false, false, [];
    }

    /** GetGuestPhysicalAddress followed by the nested lookup. */
    method Translate(a: Dword) returns (r: Dword)
      requires Valid()
      ensures r == TranslateGuestPhysicalAddress(mem[..], a)
      decreases false, 1
    {
      hide FlatEntryAddress, Join;
      var root := GetMemD(VMCB_FINAL + SAVE_STATE_CR3, false);
      var guestEntry := GetMemD(FlatEntryAddress(root, a), false);
      var guestPhysical := Join(guestEntry, a);
      var nestedEntry := GetMemD(FlatEntryAddress(NESTED_DIR_FINAL, guestPhysical), false);
      r := Join(nestedEntry, guestPhysical);
    }

    method GetMemB(a: Dword, guestMemory: bool) returns (r: Byte)
      requires Valid()
      ensures r == ReadB(mem[..], Locate(mem[..], a, guestMemory))
    {
      var p := a;
      if guestMemory {
        p := Translate(a);
      }
      r := mem[p];
    }

    method GetMemW(a: Dword, guestMemory: bool) returns (r: Word)
      requires Valid()
      ensures r == ReadW(mem[..], Locate(mem[..], a, guestMemory))
    {
      var p := a;
      if guestMemory {
        p := Translate(a);
      }
      var b0: int, b1: int := mem[p], mem[Add(p, 1)];
      r := b0 + 0x100 * b1;
    }

    method GetMemD(a: Dword, guestMemory: bool) returns (r: Dword)
      requires Valid()
      ensures r == ReadD(mem[..], Locate(mem[..], a, guestMemory))
      decreases guestMemory, 0
    {
      var p := a;
      if guestMemory {
        p := Translate(a);
      }
      var b0: int, b1: int, b2: int, b3: int := mem[p], mem[Add(p, 1)], mem[Add(p, 2)], mem[Add(p, 3)];
      r := b0 + 0x100 * b1 + 0x1_0000 * b2 + 0x100_0000 * b3;
    }

    method SetMemB(a: Dword, v: Byte, guestMemory: bool)
      requires Valid()
      modifies mem
      ensures mem[..] == WriteB(old(mem[..]), Locate(old(mem[..]), a, guestMemory), v)
    {
      var p := a;
      if guestMemory {
        p := Translate(a);
      }
      mem[p] := v;
    }

    method SetMemW(a: Dword, v: Word, guestMemory: bool)
      requires Valid()
      modifies mem
      ensures mem[..] == WriteW(old(mem[..]), Locate(old(mem[..]), a, guestMemory), v)
    {
      var p := a;
      if guestMemory {
        p := Translate(a);
      }
      mem[p] := v % 0x100;
      mem[Add(p, 1)] := v / 0x100;
    }

    method SetMemD(a: Dword, v: Dword, guestMemory: bool)
      requires Valid()
      modifies mem
      ensures mem[..] == WriteD(old(mem[..]), Locate(old(mem[..]), a, guestMemory), v)
    {
      var p := a;
      if guestMemory {
        p := Translate(a);
      }
      mem[p] := v % 0x100;
      mem[Add(p, 1)] := v / 0x100 % 0x100;
      mem[Add(p, 2)] := v / 0x1_0000 % 0x100;
      mem[Add(p, 3)] := v / 0x100_0000;
    }

    method GetVmcbB(f: Field) returns (r: Byte)
      requires Valid()
      ensures r == VmcbB(mem[..], f)
    {
      r := GetMemB(VMCB_FINAL + f, false);
    }

    method GetVmcbW(f: Field) returns (r: Word)
      requires Valid()
      ensures r == VmcbW(mem[..], f)
    {
      r := GetMemW(VMCB_FINAL + f, false);
    }

    method GetVmcbD(f: Field) returns (r: Dword)
      requires Valid()
      ensures r == VmcbD(mem[..], f)
    {
      r := GetMemD(VMCB_FINAL + f, false);
    }

    method SetVmcbB(f: Field, v: Byte)
      requires Valid()
      modifies mem
      ensures mem[..] == PutB(old(mem[..]), f, v)
    {
      SetMemB(VMCB_FINAL + f, v, false);
    }

    method SetVmcbW(f: Field, v: Word)
      requires Valid()
      modifies mem
      ensures mem[..] == PutW(old(mem[..]), f, v)
    {
      SetMemW(VMCB_FINAL + f, v, false);
    }

    method SetVmcbD(f: Field, v: Dword)
      requires Valid()
      modifies mem
      ensures mem[..] == PutD(old(mem[..]), f, v)
    {
      SetMemD(VMCB_FINAL + f, v, false);
    }
  }
}
