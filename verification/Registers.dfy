/** Register operands: what is set is what is got, and intercepted CR reads deliver the shadow
    value. */
module Registers {
  import opened Memory
  import opened Paging
  import opened Vmcb
  import opened MachineState
  import opened GuestMemory
  import opened Guest
  import opened Visor
  import opened ExitFrame
  import opened Events
  import Cmos
  import LongMath
  import Runs

  datatype Gpr = Eax | Ecx | Edx | Ebx | Esp | Ebp | Esi | Edi

  /** The general registers by their ModRM numbers (APM Volume 3, section 1.4.1). */
  const NUMBERED: seq<Gpr> := [Eax, Ecx, Edx, Ebx, Esp, Ebp, Esi, Edi]

  /** A register wherever it is kept: EAX and ESP in the VMCB, the others where VisorLoop saves them
      after VMRUN. */
  function RegisterValue(s: State, reg: Byte, w: Width): Dword
    requires WellFormed(s) && reg < 8
  {
    match NUMBERED[reg]
    case Eax => Read(s.mem, w, VMCB_FINAL + RAX)
    case Esp => Read(s.mem, w, VMCB_FINAL + RSP)
    case Ebx => Truncate(w, s.regs[0])
    case Ecx => Truncate(w, s.regs[1])
    case Edx => Truncate(w, s.regs[2])
    case Esi => Truncate(w, s.regs[3])
    case Edi => Truncate(w, s.regs[4])
    case Ebp => Truncate(w, s.regs[5])
  }

  /** The visor's index of a saved register is that of its place. */
  lemma IndexIsPlace(s: State, reg: Byte, w: Width)
    requires WellFormed(s) && reg < 8
    ensures RegisterValue(s, reg, w) ==
            if reg == 0 then Read(s.mem, w, VMCB_FINAL + RAX)
            else if reg == 4 then Read(s.mem, w, VMCB_FINAL + RSP)
            else Truncate(w, s.regs[RegisterIndex(reg)])
  {
    hide Read, Truncate;
  }

  /** The ModRM byte lies in guest memory. */
  ghost predicate Decodable(m: Mem) {
    TablesOk(m) && VmcbD(m, CS_BASE) + VmcbD(m, RIP) + 2 < GUEST_MEMORY_SIZE
  }

  /** The register the instruction names. */
  function ModRm(m: Mem): (r: Byte)
    ensures r < 8
  {
    ReadB(m, Add(CsIp(m), 2)) % 8
  }

  /** The same field read with the CS base cut to its low word. */
  function CutModRm(m: Mem): (r: Byte)
    ensures r < 8
  {
    ReadB(m, Add(Add(VmcbW(m, CS_BASE), VmcbD(m, RIP)), 2)) % 8
  }

  /** Getting a register finds the one named; setting one cuts the CS base, which is harmless below
      64K. */
  lemma RegistersDecoded(m: Mem)
    requires Decodable(m)
    ensures SourceRegister(m, 2) == ModRm(m) && TargetRegister(m, 2) == CutModRm(m)
    ensures VmcbD(m, CS_BASE) < 0x1_0000 ==> CutModRm(m) == ModRm(m)
  {
    hide VmcbW, VmcbD, TablesOk, TranslateGuestPhysicalAddress, ReadB;
    LowWordOf(m, CS_BASE);
    TranslateIsIdentity(m, VmcbD(m, CS_BASE) + VmcbD(m, RIP) + 2);
    TranslateIsIdentity(m, VmcbW(m, CS_BASE) + VmcbD(m, RIP) + 2);
  }

  /** The instruction's third byte, clear of the page table the lookup uses. */
  ghost predicate CodeByte(m: Mem, a: Dword) {
    && Decodable(m) && a == VmcbD(m, CS_BASE) + VmcbD(m, RIP) + 2
    && !(GUEST_CR3_VALUE + 0x1000 <= a < GUEST_CR3_VALUE + 0x2000)
  }

  /** With b as its third byte, the instruction's register is set. */
  ghost predicate SetsNamedRegister(m: Mem, a: Dword, b: Byte) {
    TargetRegister(m[a := b], 2) == SourceRegister(m[a := b], 2)
  }

  /** So whatever the instruction, the register set is the register named exactly when the CS base is
      below 64K. */
  lemma SetsNamedRegisterExactlyWhen(m: Mem, a: Dword)
    requires CodeByte(m, a)
    ensures VmcbD(m, CS_BASE) < 0x1_0000 <==>
            forall b: Byte :: SetsNamedRegister(m, a, b)
  {
    hide TablesOk, VmcbD, VmcbW, TargetRegister, SourceRegister, CodeByte, CutModRm;
    if VmcbD(m, CS_BASE) < 0x1_0000 {
      forall b: Byte ensures SetsNamedRegister(m, a, b) {
        CodeByteChanged(m, a, b);
      }
    } else {
      var b: Byte := if CutModRm(m) == 0 then 1 else 0;
      CodeByteChanged(m, a, b);
      assert !SetsNamedRegister(m, a, b);
    }
  }

  lemma CodeByteChanged(m: Mem, a: Dword, b: Byte)
    requires CodeByte(m, a)
    ensures var m2 := m[a := b];
            && TargetRegister(m2, 2) == CutModRm(m2) && SourceRegister(m2, 2) == b % 8
            && (VmcbD(m, CS_BASE) < 0x1_0000 ==> CutModRm(m2) == b % 8)
            && (VmcbD(m, CS_BASE) >= 0x1_0000 ==> CutModRm(m2) == CutModRm(m))
  {
    hide TablesOk, TargetRegister, SourceRegister;
    var m2 := m[a := b];
    TablesKept(m, m2);
    assert VmcbD(m2, CS_BASE) == VmcbD(m, CS_BASE) && VmcbD(m2, RIP) == VmcbD(m, RIP);
    hide VmcbD, VmcbW;
    LowWordOf(m, CS_BASE);
    LowWordOf(m2, CS_BASE);
    RegistersDecoded(m2);
  }

  /** Changes confined to the VMCB's step fields other than CS base and RIP keep the decoding. */
  lemma DecodableFramed(m: Mem, m': Mem)
    requires Decodable(m) && Framed(m, m')
    requires VmcbD(m', CS_BASE) == VmcbD(m, CS_BASE) && VmcbD(m', RIP) == VmcbD(m, RIP)
    ensures Decodable(m') && ModRm(m') == ModRm(m) && CutModRm(m') == CutModRm(m)
  {
    hide VmcbD, VmcbW, TablesOk;
    LowWordOf(m, CS_BASE);
    LowWordOf(m', CS_BASE);
    Runs.FramedTables(m, m') by { hide Framed; }
  }

  lemma ReadBackField(m: Mem, w: Width, f: Field, v: Dword)
    ensures Read(Write(m, w, VMCB_FINAL + f, v), w, VMCB_FINAL + f) == Truncate(w, v)
  {
    ReadBackW(m, VMCB_FINAL + f, v % 0x1_0000);
    ReadBackD(m, VMCB_FINAL + f, v);
  }

  lemma RaxWriteKeeps(m: Mem, w: Width, v: Dword)
    ensures var m' := Write(m, w, VMCB_FINAL + RAX, v);
            VmcbD(m', CS_BASE) == VmcbD(m, CS_BASE) && VmcbD(m', RIP) == VmcbD(m, RIP)
  {
    hide VmcbD, WriteB, WriteW, WriteD;
    PutLowByte(m, RAX, v % 0x100);
    PutWEffect(m, RAX, v % 0x1_0000);
    PutDEffect(m, RAX, v);
  }

  lemma RaxFramed(m: Mem, m': Mem, w: Width)
    requires Only(m, m', {Part(RAX, Size(w))})
    ensures Framed(m, m')
  {
    FramedFrom(m, m', {Part(RAX, Size(w))});
  }

  ghost predicate OthersKept(s: State, reg: Byte, s': State)
    requires WellFormed(s) && WellFormed(s')
  {
    && (forall r: Byte {:trigger RegisterValue(s', r, Bits32)} ::
          r < 8 && r != reg ==> RegisterValue(s', r, Bits32) == RegisterValue(s, r, Bits32))
    && s' == s.(mem := s'.mem, regs := s'.regs) && s'.regs[6..] == s.regs[6..]
  }

  /** s' is s but for v, cut to the width, in register reg. */
  ghost predicate RegisterSet(s: State, reg: Byte, v: Dword, w: Width, s': State)
    requires WellFormed(s) && WellFormed(s') && reg < 8
  {
    && RegisterValue(s', reg, w) == Truncate(w, v) && OthersKept(s, reg, s')
    && Only(s.mem, s'.mem, if reg == 0 then {Part(RAX, Size(w))} else {})
  }

  lemma RaxSet(s: State, v: Dword, w: Width)
    requires WellFormed(s)
    ensures RegisterSet(s, 0, v, w, s.(mem := Write(s.mem, w, VMCB_FINAL + RAX, v)))
  {
    hide Only, Write, Read;
    ReadBackField(s.mem, w, RAX, v);
    RaxWriteKeepsRsp(s.mem, w, v);
    OnlyWrite(s.mem, w, v, Part(RAX, Size(w)), {Part(RAX, Size(w))});
  }

  lemma SavedSet(s: State, reg: Byte, v: Dword, w: Width)
    requires WellFormed(s) && reg < 8 && reg != 0 && reg != 4
    ensures RegisterSet(s, reg, v, w, s.(regs := s.regs[RegisterIndex(reg) := Truncate(w, v)]))
  {
    hide Only, Read;
    OnlyItself(s.mem, {});
    TruncateTwice(w, v);
  }

  /** Setting a register, for the seven encodings other than ESP, changes that register to the value
      cut to the width and nothing else; and below 64K getting it back returns that. */
  lemma SetThenGet(s: State, v: Dword, w: Width)
    requires WellFormed(s) && Decodable(s.mem) && CutModRm(s.mem) != 4
    ensures var s' := SetRegister(s, 2, v, w);
            && RegisterSet(s, CutModRm(s.mem), v, w, s')
            && (VmcbD(s.mem, CS_BASE) < 0x1_0000 ==> GetRegister(s', 2, w) == Truncate(w, v))
            && VmcbD(s'.mem, RIP) == VmcbD(s.mem, RIP)
  {
    hide VmcbD, VmcbW, Write, TablesOk, ModRm, CutModRm, SourceRegister, TargetRegister, Decodable, Read, Only,
         Truncate, OthersKept;
    RegistersDecoded(s.mem);
    var s', reg := SetRegister(s, 2, v, w), CutModRm(s.mem);
    if reg == 0 {
      RaxSet(s, v, w);
      RaxWriteKeeps(s.mem, w, v);
      RaxFramed(s.mem, s'.mem, w);
      DecodableFramed(s.mem, s'.mem);
      RegistersDecoded(s'.mem);
    } else {
      SavedSet(s, reg, v, w);
    }
    IndexIsPlace(s', reg, w);
  }

  /** Getting returns the register the instruction names, for every encoding and width. */
  lemma GetIsValue(s: State, w: Width)
    requires WellFormed(s) && Decodable(s.mem)
    ensures GetRegister(s, 2, w) == RegisterValue(s, ModRm(s.mem), w)
  {
    hide TablesOk, ModRm, SourceRegister, TargetRegister, Decodable, Read, Truncate;
    RegistersDecoded(s.mem);
    IndexIsPlace(s, ModRm(s.mem), w);
  }

  /** Setting ESP sets as much of RIP instead, and no register. */
  lemma EspSetsRip(s: State, v: Dword, w: Width)
    requires WellFormed(s) && Decodable(s.mem) && CutModRm(s.mem) == 4
    ensures var s' := SetRegister(s, 2, v, w);
            && s' == s.(mem := s'.mem) && Only(s.mem, s'.mem, {Part(RIP, Size(w))})
            && Read(s'.mem, w, VMCB_FINAL + RIP) == Truncate(w, v)
  {
    hide TablesOk, ModRm, CutModRm, SourceRegister, TargetRegister, Decodable, Read, Truncate, Write, Only;
    RegistersDecoded(s.mem);
    ReadBackField(s.mem, w, RIP, v);
    OnlyWrite(s.mem, w, v, Part(RIP, Size(w)), {Part(RIP, Size(w))});
  }

  lemma TruncateTwice(w: Width, v: Dword)
    ensures Truncate(w, Truncate(w, v)) == Truncate(w, v)
  {
  }

  lemma RaxWriteKeepsRsp(m: Mem, w: Width, v: Dword)
    ensures Read(Write(m, w, VMCB_FINAL + RAX, v), Bits32, VMCB_FINAL + RSP) == Read(m, Bits32, VMCB_FINAL + RSP)
  {
    hide WriteB, WriteW, WriteD, VmcbD;
    PutLowByte(m, RAX, v % 0x100);
    PutWEffect(m, RAX, v % 0x1_0000);
    PutDEffect(m, RAX, v);
    KeepsRspDword(m, Write(m, w, VMCB_FINAL + RAX, v));
  }

  lemma KeepsRspDword(m: Mem, m': Mem)
    requires VmcbD(m', RSP) == VmcbD(m, RSP)
    ensures Read(m', Bits32, VMCB_FINAL + RSP) == Read(m, Bits32, VMCB_FINAL + RSP)
  {
    hide ReadD;
  }

  /** The part of a register above a width. */
  function Above(w: Width, v: Dword): Dword {
    v - Truncate(w, v)
  }

  lemma RaxAbove(m: Mem, w: Width, v: Dword)
    ensures Above(w, Read(Write(m, w, VMCB_FINAL + RAX, v), Bits32, VMCB_FINAL + RAX)) ==
            Above(w, Read(m, Bits32, VMCB_FINAL + RAX))
  {
    hide Write, ReadD, Above;
    Cmos.RaxAfterWrite(m, w, v);
    AboveKept(w, VmcbD(m, RAX), v);
  }

  lemma NothingAbove(w: Width, v: Dword)
    ensures Above(w, Truncate(w, v)) == 0
  {
    TruncateTwice(w, v);
  }

  lemma WholeRegister()
    ensures forall x: Dword :: Above(Bits32, x) == 0
  {
  }

  lemma AboveKept(w: Width, x: Dword, v: Dword)
    ensures Above(w, match w case Bits8 => x / 0x100 * 0x100 + v % 0x100
                             case Bits16 => x / 0x1_0000 * 0x1_0000 + v % 0x1_0000
                             case Bits32 => v) == Above(w, x)
  {
    match w
    case Bits8 => LowPart(x / 0x100, v % 0x100, 0x100);
    case Bits16 => LowPart(x / 0x1_0000, v % 0x1_0000, 0x1_0000);
    case Bits32 =>
  }

  lemma LowPart(q: nat, r: nat, d: nat)
    requires r < d
    ensures (q * d + r) % d == r
  {
    LongMath.DivisionUnique(q * d + r, d, q, r);
  }

  /** A byte or word set leaves the rest of EAX alone and zeroes the rest of every other register:
      the upper part survives exactly in EAX, on a doubleword set, or when it was zero. */
  lemma UpperPartSurvivesExactlyWhen(s: State, v: Dword, w: Width)
    requires WellFormed(s) && Decodable(s.mem) && CutModRm(s.mem) != 4
    ensures var reg := CutModRm(s.mem);
            var before, after := RegisterValue(s, reg, Bits32), RegisterValue(SetRegister(s, 2, v, w), reg, Bits32);
            && Above(w, after) == (if reg == 0 then Above(w, before) else 0)
            && (Above(w, after) == Above(w, before) <==> reg == 0 || w == Bits32 || Above(w, before) == 0)
  {
    hide VmcbD, VmcbW, Write, TablesOk, ModRm, CutModRm, SourceRegister, TargetRegister, Decodable, Read, RegisterValue,
         Above;
    RegistersDecoded(s.mem);
    IndexIsPlace(s, CutModRm(s.mem), Bits32);
    IndexIsPlace(SetRegister(s, 2, v, w), CutModRm(s.mem), Bits32);
    if CutModRm(s.mem) == 0 {
      RaxAbove(s.mem, w, v);
    } else {
      NothingAbove(w, v);
    }
    assert w == Bits32 ==> Above(w, RegisterValue(s, CutModRm(s.mem), Bits32)) == 0 by { WholeRegister(); }
  }

  // ----- intercepted control register reads -----

  /** All registers read alike where EAX and ESP do in the VMCB. */
  lemma SameRegisters(s: State, m': Mem, w: Width)
    requires WellFormed(s) && VmcbD(m', RAX) == VmcbD(s.mem, RAX) && VmcbD(m', RSP) == VmcbD(s.mem, RSP)
    ensures forall r: Byte {:trigger RegisterValue(s.(mem := m'), r, w)} ::
              r < 8 ==> RegisterValue(s.(mem := m'), r, w) == RegisterValue(s, r, w)
  {
    hide VmcbD, Read, Truncate;
    FieldsReadSame(s.mem, m', w);
  }

  lemma AdvanceFields(m: Mem, count: Byte)
    ensures VmcbW(AdvanceIp(m, count), RIP) == AddW(VmcbW(m, RIP), count)
    ensures VmcbD(AdvanceIp(m, count), RAX) == VmcbD(m, RAX) && VmcbD(AdvanceIp(m, count), RSP) == VmcbD(m, RSP)
    ensures VmcbD(AdvanceIp(m, count), SAVE_STATE_CR3) == VmcbD(m, SAVE_STATE_CR3)
    ensures VmcbW(AdvanceIp(m, count), RIP + 2) == VmcbW(m, RIP + 2)
  {
    hide VmcbW, VmcbD, PutW, AddW;
    PutWEffect(m, RIP, AddW(VmcbW(m, RIP), count));
  }

  lemma FieldsReadSame(m: Mem, m': Mem, w: Width)
    requires VmcbD(m', RAX) == VmcbD(m, RAX) && VmcbD(m', RSP) == VmcbD(m, RSP)
    ensures Read(m', w, VMCB_FINAL + RAX) == Read(m, w, VMCB_FINAL + RAX)
    ensures Read(m', w, VMCB_FINAL + RSP) == Read(m, w, VMCB_FINAL + RSP)
  {
    hide ReadW, ReadD;
    Runs.SameBytes(m, m', VMCB_FINAL + RAX);
    Runs.SameBytes(m, m', VMCB_FINAL + RSP);
    SameBytesRead(m, m', VMCB_FINAL + RAX, w);
    SameBytesRead(m, m', VMCB_FINAL + RSP, w);
  }

  lemma SameBytesRead(m: Mem, m': Mem, a: Dword, w: Width)
    requires a + 4 <= MEM_SIZE
    requires m'[a] == m[a] && m'[a + 1] == m[a + 1] && m'[a + 2] == m[a + 2] && m'[a + 3] == m[a + 3]
    ensures Read(m', w, a) == Read(m, w, a)
  {
  }

  /** The parts of the VMCB a read of a control register into register reg writes. */
  ghost function DeliveredParts(reg: Byte, w: Width): set<Part> {
    if reg == 0 then ON_EVERY_EXIT + {Part(RAX, Size(w)), Part(RIP, 2)}
    else ON_EVERY_EXIT + {Part(RIP, if reg == 4 && w == Bits32 then 4 else 2)}
  }

  /** In the register found with the cut base: seven encodings receive the value, and RIP moves on by
      3.  The ESP encoding does not: the value goes into RIP instead, and ESP keeps its own.  Nothing
      else changes. */
  ghost predicate Delivered(s: State, v: Dword, w: Width, s': State)
    requires WellFormed(s) && WellFormed(s')
  {
    var reg, m, m' := CutModRm(s.mem), s.mem, s'.mem;
    && OthersKept(s, reg, s') && Only(m, m', DeliveredParts(reg, w))
    && if reg != 4 then
         RegisterValue(s', reg, w) == Truncate(w, v) && VmcbW(m', RIP) == AddW(VmcbW(m, RIP), 3)
       else
         && RegisterValue(s', reg, Bits32) == RegisterValue(s, reg, Bits32)
         && VmcbW(m', RIP) == AddW(v % 0x1_0000, 3)
         && (w == Bits32 ==> VmcbW(m', RIP + 2) == v / 0x1_0000)
  }

  /** What a handler that sets a register and steps over a three-byte instruction leaves. */
  lemma SetAndAdvance(s: State, v: Dword, w: Width)
    requires WellFormed(s) && Decodable(s.mem) && w != Bits8
    ensures var s1 := SetRegister(s, 2, v, w);
            Delivered(s, v, w, s1.(mem := AdvanceIp(s1.mem, 3)))
  {
    hide VmcbD, VmcbW, AddW, TargetRegister, SourceRegister, Decodable, Write, Read, AdvanceIp, ModRm, CutModRm, Only,
         Truncate, RegisterValue;
    var s1, reg := SetRegister(s, 2, v, w), CutModRm(s.mem);
    var m' := AdvanceIp(s1.mem, 3);
    AdvanceFields(s1.mem, 3);
    SameRegisters(s1, m', w);
    SameRegisters(s1, m', Bits32);
    RegistersDecoded(s.mem);
    var ps, ip := DeliveredParts(reg, w), Part(RIP, if reg == 4 && w == Bits32 then 4 else 2);
    if reg == 4 {
      RipWritten(s.mem, w, v);
      SameRegisters(s, s1.mem, Bits32);
      OnlyWrite(s.mem, w, v, ip, ps);
    } else {
      SetThenGet(s, v, w);
      OnlyMore(s.mem, s1.mem, if reg == 0 then {Part(RAX, Size(w))} else {}, ps);
      LowWordOf(s.mem, RIP);
      LowWordOf(s1.mem, RIP);
    }
    OnlyAdvance(s.mem, s1.mem, ps, ip, 3);
  }

  lemma RipWritten(m: Mem, w: Width, v: Dword)
    requires w != Bits8
    ensures var m' := Write(m, w, VMCB_FINAL + RIP, v);
            && VmcbW(m', RIP) == v % 0x1_0000 && (w == Bits32 ==> VmcbW(m', RIP + 2) == v / 0x1_0000)
            && VmcbD(m', RAX) == VmcbD(m, RAX) && VmcbD(m', RSP) == VmcbD(m, RSP)
  {
    hide VmcbD, VmcbW, WriteB, WriteW, WriteD;
    PutWEffect(m, RIP, v % 0x1_0000);
    PutDEffect(m, RIP, v);
    HalvesOf(Write(m, w, VMCB_FINAL + RIP, v), RIP);
  }

  lemma HalvesOf(m: Mem, f: Field)
    requires f + 2 < 0x1000
    ensures VmcbW(m, f) == VmcbD(m, f) % 0x1_0000 && VmcbW(m, f + 2) == VmcbD(m, f) / 0x1_0000
  {
    hide ReadW, ReadD;
    DwordHalves(m, VMCB_FINAL + f);
  }

  lemma PreparedDecodable(m: Mem)
    requires Decodable(m)
    ensures Decodable(Prepare(m)) && ModRm(Prepare(m)) == ModRm(m) && CutModRm(Prepare(m)) == CutModRm(m)
  {
    hide Decodable, Prepare, ModRm, CutModRm, VmcbD, Framed;
    FramedPrepare(m);
    PrepareEffect(m);
    DecodableFramed(m, Prepare(m));
  }

  lemma DeliveredFromPrepared(s: State, v: Dword, w: Width, s': State)
    requires WellFormed(s) && WellFormed(s') && Decodable(s.mem)
    requires Delivered(s.(mem := Prepare(s.mem)), v, w, s')
    ensures Delivered(s, v, w, s')
  {
    hide Prepare, Decodable, ModRm, CutModRm, VmcbD, VmcbW, Read, Only, RegisterValue, Truncate, AddW;
    PreparedDecodable(s.mem);
    PrepareEffect(s.mem);
    SameRegisters(s, Prepare(s.mem), w);
    SameRegisters(s, Prepare(s.mem), Bits32);
    var ps := DeliveredParts(CutModRm(s.mem), w);
    OnlyAfterPrepare(s.mem, s'.mem, ps, ps);
  }

  function Instruction(m: Mem): Word { ReadW(m, CsIp(m)) }

  lemma InstructionFetched(m: Mem)
    requires Decodable(m)
    ensures ReadW(Prepare(m), TranslateGuestPhysicalAddress(Prepare(m), CsIp(Prepare(m)))) == Instruction(m)
  {
    hide Prepare, VmcbD, VmcbW, TablesOk, TranslateGuestPhysicalAddress, Framed, ReadW;
    PreparedDecodable(m);
    PrepareEffect(m);
    FramedPrepare(m);
    TranslateIsIdentity(Prepare(m), CsIp(m));
    FramedWord(m, Prepare(m), CsIp(m));
  }

  lemma FramedWord(m: Mem, m': Mem, a: Dword)
    requires Framed(m, m') && a < GUEST_MEMORY_SIZE
    ensures ReadW(m', a) == ReadW(m, a)
  {
  }

  /** An intercepted read of CR0 delivers the shadow CR0, cut to a word for SMSW, and one of CR3
      delivers zero while the guest runs without paging. */
  lemma CrReadsDeliverShadow(s: State, portIn: Dword)
    requires WellFormed(s) && !s.halted && Decodable(s.mem)
    ensures ExitCode(s.mem) == VMEXIT_CR0_READ ==>
              Delivered(s, s.requestedCr0, if Instruction(s.mem) == OPCODE_SMSW then Bits16 else Bits32,
                        Step(s, portIn))
    ensures ExitCode(s.mem) == VMEXIT_CR3_READ ==>
              Delivered(s, if s.pmode && s.paging then s.requestedCr3 else 0, Bits32, Step(s, portIn))
  {
    hide Prepare, Decodable, SetRegister, AdvanceIp, VmcbW, VmcbD, ReadW, TranslateGuestPhysicalAddress, Delivered,
         IntNo, CsIp, Instruction;
    var s1 := s.(mem := Prepare(s.mem));
    PreparedDecodable(s.mem);
    InstructionFetched(s.mem);
    if ExitCode(s.mem) == VMEXIT_CR0_READ {
      var w := if Instruction(s.mem) == OPCODE_SMSW then Bits16 else Bits32;
      SetAndAdvance(s1, s.requestedCr0, w);
      DeliveredFromPrepared(s, s.requestedCr0, w, Step(s, portIn));
    } else if ExitCode(s.mem) == VMEXIT_CR3_READ {
      var v := if s.pmode && s.paging then s.requestedCr3 else 0;
      SetAndAdvance(s1, v, Bits32);
      DeliveredFromPrepared(s, v, Bits32, Step(s, portIn));
    }
  }

  // ----- intercepted control register writes -----

  /** A write of CR3 is recorded, from whichever register the instruction names, and performed only
      while guest paging is marked on; a write of CR0 is skipped altogether. */
  lemma CrWritesAreShadowed(s: State, portIn: Dword)
    requires WellFormed(s) && !s.halted && Decodable(s.mem)
    ensures ExitCode(s.mem) == VMEXIT_CR3_WRITE ==>
              var s', v := Step(s, portIn), RegisterValue(s, ModRm(s.mem), Bits32);
              && s'.requestedCr3 == v && VmcbW(s'.mem, RIP) == AddW(VmcbW(s.mem, RIP), 3)
              && VmcbD(s'.mem, SAVE_STATE_CR3) ==
                 if s.pmode && s.paging && s.requestedCr0 > 0 then v else VmcbD(s.mem, SAVE_STATE_CR3)
    ensures ExitCode(s.mem) == VMEXIT_CR0_WRITE ==>
              var s' := Step(s, portIn);
              && VmcbD(s'.mem, RIP) == VmcbD(s.mem, NRIP) && VmcbD(s'.mem, CR0) == VmcbD(s.mem, CR0)
              && s'.requestedCr0 == s.requestedCr0
  {
    hide Prepare, Decodable, AdvanceIp, VmcbW, VmcbD, IntNo, SourceRegister, ModRm, CutModRm, Read, PutW, PutD,
         ExitCode, RegisterValue;
    var m, s1 := Prepare(s.mem), s.(mem := Prepare(s.mem));
    PreparedDecodable(s.mem);
    PrepareEffect(s.mem);
    RegistersDecoded(m);
    IndexIsPlace(s1, ModRm(s.mem), Bits32);
    SameRegisters(s, m, Bits32);
    var v := GetRegister(s1, 2, Bits32);
    PutDEffect(m, SAVE_STATE_CR3, v);
    AdvanceFields(m, 3);
    AdvanceFields(PutD(m, SAVE_STATE_CR3, v), 3);
    var m1 := PutW(m, CLEAN_BITS, 0xFFDF);
    PutWEffect(m, CLEAN_BITS, 0xFFDF);
    PutDEffect(m1, RIP, VmcbD(m1, NRIP));
  }
}
