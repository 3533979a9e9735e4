/** What no exit ever touches: the frame of a step, the soundness of the clean bits, and what
    stays fixed over whole runs. */
module ExitFrame {
  import opened Memory
  import opened Paging
  import opened Vmcb
  import opened MachineState
  import opened GuestMemory
  import opened RealModeStack
  import opened Guest
  import opened Visor
  import opened Events

  /** The only bytes an exit may change: EVENTINJ, the clean bits, CS base, RFLAGS, RIP, low
      RSP and RAX. */
  ghost predicate StepField(a: int) {
    || VMCB_FINAL + EVENTINJ <= a < VMCB_FINAL + EVENTINJ + 8
    || VMCB_FINAL + CLEAN_BITS <= a < VMCB_FINAL + CLEAN_BITS + 2
    || VMCB_FINAL + CS_BASE <= a < VMCB_FINAL + CS_BASE + 4
    || VMCB_FINAL + RFLAGS <= a < VMCB_FINAL + RFLAGS + 4
    || VMCB_FINAL + RIP <= a < VMCB_FINAL + RIP + 4
    || VMCB_FINAL + RSP <= a < VMCB_FINAL + RSP + 2
    || VMCB_FINAL + RAX <= a < VMCB_FINAL + RAX + 4
  }

  ghost predicate Framed(m: Mem, m': Mem) {
    forall a: Dword {:trigger m[a]} {:trigger m'[a]} :: !StepField(a) ==> m'[a] == m[a]
  }

  lemma FramedFrom(m: Mem, m': Mem, ps: set<Part>)
    requires Only(m, m', ps) && forall a: int :: InParts(ps, a) ==> StepField(a)
    ensures Framed(m, m')
  {
    hide InParts, StepField;
  }

  // ----- what each kind of exit writes -----

  /** The parts of the VMCB an exit may write besides those written on every exit; the kinds not
      listed write none. */
  ghost function Writes(s: State): set<Part>
    requires WellFormed(s)
  {
    var m := s.mem;
    var code := VmcbW(m, EXITCODE);
    if code == VMEXIT_SWINT || code == VMEXIT_INTR then
      if AnsweredByVisor(s) then {Part(RAX, 2), Part(RFLAGS, 4), Part(RIP, 2)} else {Part(EVENTINJ, 4), Part(RIP, 2)}
    else if code == VMEXIT_IRET then {Part(RFLAGS, 2), Part(CS_BASE, 4), Part(RIP, 2), Part(RSP, 2)}
    else if code == VMEXIT_CR0_READ || code == VMEXIT_CR3_READ then {Part(RAX, 4), Part(RIP, 4)}
    else if code == VMEXIT_CR0_WRITE then {Part(RIP, 4)}
    else if code == VMEXIT_CR3_WRITE then
      if s.pmode && s.paging && s.requestedCr0 > 0 then {Part(SAVE_STATE_CR3, 4), Part(RIP, 2)} else {Part(RIP, 2)}
    else if code == VMEXIT_IOIO then {Part(RAX, 4), Part(RIP, 2)}
    else if code == VMEXIT_EXCEPTION_13 then
      if DuringDelivery(m) then {Part(EVENTINJ, 4), Part(RIP, 2)} else {Part(EVENTINJ, 4)}
    else if code in {VMEXIT_EXCEPTION_01, VMEXIT_EXCEPTION_03, VMEXIT_EXCEPTION_06} then {Part(EVENTINJ, 4)}
    else {}
  }

  /** What an exit may change besides memory: the registers on an answered interrupt or a control
      register read, the recorded CR3 on a CR3 write, the CMOS latch and the bytes sent on a port
      access, and whether the machine halts. */
  ghost predicate OwnState(s: State, s': State)
    requires WellFormed(s)
  {
    var code := VmcbW(s.mem, EXITCODE);
    var registers := ((code == VMEXIT_SWINT || code == VMEXIT_INTR) && AnsweredByVisor(s)) ||
                     code == VMEXIT_CR0_READ || code == VMEXIT_CR3_READ;
    s' == s.(mem := s'.mem, halted := s'.halted,
             regs := if registers then s'.regs else s.regs,
             requestedCr3 := if code == VMEXIT_CR3_WRITE then s'.requestedCr3 else s.requestedCr3,
             inValue := if code == VMEXIT_IOIO then s'.inValue else s.inValue,
             inValueSet := if code == VMEXIT_IOIO then s'.inValueSet else s.inValueSet,
             outs := if code == VMEXIT_IOIO then s'.outs else s.outs)
  }

  lemma OnlyWrite(m: Mem, w: Width, v: Dword, p: Part, ps: set<Part>)
    requires p in ps && Size(w) <= p.size
    ensures Only(m, Write(m, w, VMCB_FINAL + p.field, v), ps)
  {
    hide Only, WriteB, WriteW, WriteD;
    OnlyItself(m, ps);
    match w
    case Bits8 => OnlyPutB(m, m, ps, p, v % 0x100);
    case Bits16 => OnlyPutW(m, m, ps, p, v % 0x1_0000);
    case Bits32 => OnlyPutD(m, m, ps, p, v);
  }

  lemma OnlyRegister(s: State, v: Dword, w: Width)
    requires WellFormed(s)
    ensures var s' := SetRegister(s, 2, v, w);
            && Only(s.mem, AdvanceIp(s'.mem, 3), {Part(RAX, 4), Part(RIP, 4)})
            && s' == s.(mem := s'.mem, regs := s'.regs)
  {
    hide Only, Write, TargetRegister, Truncate, AdvanceIp;
    var ps := {Part(RAX, 4), Part(RIP, 4)};
    OnlyItself(s.mem, ps);
    OnlyWrite(s.mem, w, v, Part(RAX, 4), ps);
    OnlyWrite(s.mem, w, v, Part(RIP, 4), ps);
    OnlyAdvance(s.mem, SetRegister(s, 2, v, w).mem, ps, Part(RIP, 4), 3);
  }

  lemma OnlyAdvance(m0: Mem, m: Mem, ps: set<Part>, p: Part, count: Byte)
    requires Only(m0, m, ps) && p in ps && p.field == RIP && 2 <= p.size
    ensures Only(m0, AdvanceIp(m, count), ps)
  {
    hide Only, PutW, VmcbW, AddW;
    OnlyPutW(m0, m, ps, p, AddW(VmcbW(m, RIP), count));
  }

  lemma OnlyCrReads(s: State)
    requires WellFormed(s)
    ensures var ps := {Part(RAX, 4), Part(RIP, 4)};
            Only(s.mem, Cr0Read(s).mem, ps) && Only(s.mem, Cr3Read(s).mem, ps)
    ensures Cr0Read(s) == s.(mem := Cr0Read(s).mem, regs := Cr0Read(s).regs)
    ensures Cr3Read(s) == s.(mem := Cr3Read(s).mem, regs := Cr3Read(s).regs)
  {
    hide Only, SetRegister, AdvanceIp, ReadW, TranslateGuestPhysicalAddress, CsIp;
    forall v: Dword, w: Width {:trigger SetRegister(s, 2, v, w)}
      ensures Only(s.mem, AdvanceIp(SetRegister(s, 2, v, w).mem, 3), {Part(RAX, 4), Part(RIP, 4)})
      ensures SetRegister(s, 2, v, w) ==
              s.(mem := SetRegister(s, 2, v, w).mem, regs := SetRegister(s, 2, v, w).regs)
    {
      OnlyRegister(s, v, w);
    }
  }

  lemma OnlyCr3Write(s: State)
    requires WellFormed(s)
    ensures Only(s.mem, Cr3Written(s).mem, if s.pmode && s.paging && s.requestedCr0 > 0
                                           then {Part(SAVE_STATE_CR3, 4), Part(RIP, 2)} else {Part(RIP, 2)})
    ensures Cr3Written(s) == s.(mem := Cr3Written(s).mem, requestedCr3 := Cr3Written(s).requestedCr3)
  {
    hide Only, GetRegister, AdvanceIp, PutD;
    var qs := {Part(SAVE_STATE_CR3, 4), Part(RIP, 2)};
    OnlyItself(s.mem, {Part(RIP, 2)});
    OnlyItself(s.mem, qs);
    OnlyAdvance(s.mem, s.mem, {Part(RIP, 2)}, Part(RIP, 2), 3);
    OnlyPutD(s.mem, s.mem, qs, Part(SAVE_STATE_CR3, 4), GetRegister(s, 2, Bits32));
    OnlyAdvance(s.mem, PutD(s.mem, SAVE_STATE_CR3, GetRegister(s, 2, Bits32)), qs, Part(RIP, 2), 3);
  }

  lemma OnlyCr0Write(m: Mem)
    ensures Only(m, Cr0WriteExit(m), {Part(RIP, 4)} + {Part(CLEAN_BITS, 2)})
  {
    hide Only, PutW, PutD, VmcbD;
    var ps, m1 := {Part(RIP, 4)} + {Part(CLEAN_BITS, 2)}, PutW(m, CLEAN_BITS, 0xFFDF);
    OnlyItself(m, ps);
    OnlyPutW(m, m, ps, Part(CLEAN_BITS, 2), 0xFFDF);
    OnlyPutD(m, m1, ps, Part(RIP, 4), VmcbD(m1, NRIP));
  }

  lemma OnlyIret(m: Mem)
    ensures Only(m, IretExit(m),
                 {Part(RFLAGS, 2), Part(CS_BASE, 4), Part(RIP, 2), Part(RSP, 2)} + {Part(CLEAN_BITS, 2)})
  {
    hide Only, PutW, PutD, VmcbW, GuestW, AddW, Add, SetIfClearTf, Or100;
    var ps := {Part(RFLAGS, 2), Part(CS_BASE, 4), Part(RIP, 2), Part(RSP, 2)} + {Part(CLEAN_BITS, 2)};
    var top := Add(VmcbW(m, SS_BASE), VmcbW(m, RSP));
    OnlyItself(m, ps);
    var m1 := PutW(m, RFLAGS, SetIfClearTf(GuestW(m, Add(top, 4))));
    OnlyPutW(m, m, ps, Part(RFLAGS, 2), SetIfClearTf(GuestW(m, Add(top, 4))));
    var m2 := PutD(m1, CS_BASE, GuestW(m1, Add(top, 2)) * 0x10);
    OnlyPutD(m, m1, ps, Part(CS_BASE, 4), GuestW(m1, Add(top, 2)) * 0x10);
    var m3 := PutW(m2, RIP, GuestW(m2, top));
    OnlyPutW(m, m2, ps, Part(RIP, 2), GuestW(m2, top));
    var m4 := PutW(m3, RSP, AddW(VmcbW(m3, RSP), 6));
    OnlyPutW(m, m3, ps, Part(RSP, 2), AddW(VmcbW(m3, RSP), 6));
    OnlyPutW(m, m4, ps, Part(CLEAN_BITS, 2), Or100(VmcbW(m4, CLEAN_BITS)));
  }

  lemma OnlyGp(m: Mem)
    ensures Only(m, ExceptionExit(m, VMEXIT_EXCEPTION_13),
                 (if DuringDelivery(m) then {Part(EVENTINJ, 4), Part(RIP, 2)} else {Part(EVENTINJ, 4)}) +
                 {Part(EVENT_VALID, 4)})
  {
    hide Only, PutW, PutD, VmcbW, VmcbD, SubW;
    var ps := (if DuringDelivery(m) then {Part(EVENTINJ, 4), Part(RIP, 2)} else {Part(EVENTINJ, 4)}) +
              {Part(EVENT_VALID, 4)};
    var m1 := PutD(m, EVENTINJ, 0x8000_0B0D);
    OnlyItself(m, ps);
    OnlyPutD(m, m, ps, Part(EVENTINJ, 4), 0x8000_0B0D);
    if DuringDelivery(m) {
      var m2 := PutD(m1, EVENT_VALID, VmcbD(m, EXITINTINFO) % 0x100 * 8 + 2);
      OnlyPutD(m, m1, ps, Part(EVENT_VALID, 4), VmcbD(m, EXITINTINFO) % 0x100 * 8 + 2);
      OnlyPutW(m, m2, ps, Part(RIP, 2), SubW(VmcbW(m2, RIP), 2));
    } else {
      OnlyPutD(m, m1, ps, Part(EVENT_VALID, 4), VmcbD(m, EXITINFO1));
    }
  }

  lemma OnlyException(m: Mem, code: Word)
    requires code != VMEXIT_EXCEPTION_13
    ensures Only(m, ExceptionExit(m, code), {Part(EVENTINJ, 4)})
    ensures code !in {VMEXIT_EXCEPTION_01, VMEXIT_EXCEPTION_03, VMEXIT_EXCEPTION_06} ==> ExceptionExit(m, code) == m
  {
    hide Only, PutD;
    var ps := {Part(EVENTINJ, 4)};
    OnlyItself(m, ps);
    OnlyPutD(m, m, ps, Part(EVENTINJ, 4), 0x8000_0001);
    OnlyPutD(m, m, ps, Part(EVENTINJ, 4), 0x8000_0303);
    OnlyPutD(m, m, ps, Part(EVENTINJ, 4), 0x8000_0306);
  }

  lemma OnlyIo(s: State, portIn: Dword)
    requires WellFormed(s)
    ensures var s' := GuestIo(s, portIn);
            && Only(s.mem, s'.mem, {Part(RAX, 4), Part(RIP, 2)})
            && s' == s.(mem := s'.mem, inValue := s'.inValue, inValueSet := s'.inValueSet, outs := s'.outs)
  {
    hide Only, PutB, PutW, VmcbW, VmcbD, Write, IoPort, IoIsIn, IoWidth, ForwardedOut, CmosByte, CmosIndex;
    var ps := {Part(RAX, 4), Part(RIP, 2)};
    OnlyItself(s.mem, ps);
    OnlyPutB(s.mem, s.mem, ps, Part(RAX, 4), s.inValue);
    OnlyWrite(s.mem, IoWidth(s.mem), portIn, Part(RAX, 4), ps);
    var m1 := IoTransfer(s, portIn).mem;
    assert Only(s.mem, m1, ps);
    OnlyPutW(s.mem, m1, ps, Part(RIP, 2), VmcbW(m1, EXITINFO2));
  }

  /** Whatever the exit and whatever memory holds: besides the upper half of EVENTINJ and the clean
      bits, an exit writes the parts of its own kind and nothing else anywhere in memory, and
      changes no state but that of its kind. */
  lemma StepWrites(s: State, portIn: Dword)
    requires WellFormed(s)
    ensures Only(s.mem, Step(s, portIn).mem, ON_EVERY_EXIT + Writes(s))
    ensures OwnState(s, Step(s, portIn))
  {
    hide Only, Step, AnsweredByVisor, VmcbW;
    if IsInterruptExit(s) {
      EmulatesOrInjects(s, portIn);
    } else {
      var ps := DispatchWrites(s, portIn);
      OnlyAfterPrepare(s.mem, Step(s, portIn).mem, ps, ON_EVERY_EXIT + Writes(s));
    }
  }

  lemma DispatchWrites(s: State, portIn: Dword) returns (ps: set<Part>)
    requires WellFormed(s) && !IsInterruptExit(s)
    ensures Only(Prepare(s.mem), Step(s, portIn).mem, ps) && ON_EVERY_EXIT + ps == ON_EVERY_EXIT + Writes(s)
    ensures OwnState(s, Step(s, portIn))
  {
    hide Only, Prepare, IretExit, Cr0WriteExit, ExceptionExit, IntNo, Halts, Cr0Read, Cr3Read, Cr3Written, GuestIo,
         AnsweredByVisor, VmcbW, VmcbD;
    var s1, code := s.(mem := Prepare(s.mem)), ExitCode(s.mem);
    ps := Writes(s);
    OnlyItself(s1.mem, {});
    if code == VMEXIT_IRET {
      OnlyIret(s1.mem);
      ps := ps + {Part(CLEAN_BITS, 2)};
    } else if code == VMEXIT_CR0_READ || code == VMEXIT_CR3_READ {
      OnlyCrReads(s1);
    } else if code == VMEXIT_CR0_WRITE {
      OnlyCr0Write(s1.mem);
      ps := ps + {Part(CLEAN_BITS, 2)};
    } else if code == VMEXIT_CR3_WRITE {
      OnlyCr3Write(s1);
    } else if code == VMEXIT_IOIO {
      OnlyIo(s1, portIn);
    } else if code == VMEXIT_EXCEPTION_13 {
      PrepareEffect(s.mem);
      OnlyGp(s1.mem);
      ps := ps + {Part(EVENT_VALID, 4)};
    } else if IsException(code) {
      OnlyException(s1.mem, code);
    }
  }

  lemma WritesStepFields(s: State)
    requires WellFormed(s) && !(s.pmode && s.paging)
    ensures forall a: int :: InParts(ON_EVERY_EXIT + Writes(s), a) ==> StepField(a)
  {
    hide VmcbW, VmcbD, AnsweredByVisor;
  }

  /** So, as long as guest paging is not marked on, a step changes nothing but the step fields; and it
      never marks it on. */
  lemma StepFrame(s: State, portIn: Dword)
    requires WellFormed(s) && !(s.pmode && s.paging)
    ensures Framed(s.mem, Step(s, portIn).mem)
    ensures SameFlags(s, Step(s, portIn))
  {
    hide Framed, Only, Step, Writes, VmcbW, AnsweredByVisor;
    StepWrites(s, portIn);
    WritesStepFields(s);
    FramedFrom(s.mem, Step(s, portIn).mem, ON_EVERY_EXIT + Writes(s));
  }

  lemma FramedPrepare(m: Mem)
    ensures Framed(m, Prepare(m))
  {
    hide Framed, Only, Prepare;
    OnlyPrepare(m);
    FramedFrom(m, Prepare(m), ON_EVERY_EXIT);
  }

  ghost predicate SameFlags(s: State, s': State) {
    s'.pmode == s.pmode && s'.paging == s.paging && s'.requestedCr0 == s.requestedCr0
  }

  // ----- clean bits -----

  /** The groups of VMCB fields a clean bit vouches for (APM Volume 2, section 15.15.3). */
  datatype CleanGroup = Intercepts | Iopm | Asid | Tpr | Np | Crx | Drx | Dt | Seg | Cr2 | Lbr | Avic

  function CleanBit(g: CleanGroup): nat {
    match g
    case Intercepts => 1 case Iopm => 2 case Asid => 4 case Tpr => 8
    case Np => 0x10 case Crx => 0x20 case Drx => 0x40 case Dt => 0x80
    case Seg => 0x100 case Cr2 => 0x200 case Lbr => 0x400 case Avic => 0x800
  }

  predicate InGroup(g: CleanGroup, f: Field) {
    match g
    case Intercepts => f < 0x14 || 0x3C <= f < 0x40 || 0x50 <= f < 0x58
    case Iopm => 0x40 <= f < 0x50
    case Asid => 0x58 <= f < 0x5C
    case Tpr => 0x60 <= f < 0x68
    case Np => 0x90 <= f < 0x98 || 0xB0 <= f < 0xB8 || 0x668 <= f < 0x670
    case Crx => 0x4D0 <= f < 0x4D8 || 0x548 <= f < 0x560
    case Drx => 0x560 <= f < 0x570
    case Dt => 0x460 <= f < 0x470 || 0x480 <= f < 0x490
    case Seg => 0x400 <= f < 0x440 || f == 0x4CB
    case Cr2 => 0x640 <= f < 0x648
    case Lbr => 0x670 <= f < 0x698
    case Avic => 0x98 <= f < 0xA0 || 0xE0 <= f < 0xE8 || 0xF0 <= f < 0x100
  }

  /** If the bit of g is set when the guest is entered again, no field of g has changed since
      the exit. */
  ghost predicate CleanBitSound(m: Mem, m': Mem, g: CleanGroup) {
    VmcbW(m', CLEAN_BITS) / CleanBit(g) % 2 == 1 ==>
      forall f: Field :: InGroup(g, f) ==> m'[VMCB_FINAL + f] == m[VMCB_FINAL + f]
  }

  /** Every clean bit an exit leaves set is sound, but for the segment group. */
  lemma CleanBitsAreSound(s: State, portIn: Dword, g: CleanGroup)
    requires WellFormed(s) && !(s.pmode && s.paging) && g != Seg
    ensures CleanBitSound(s.mem, Step(s, portIn).mem, g)
  {
    hide Step, VmcbW, CleanBit;
    StepFrame(s, portIn);
    GroupFramed(s.mem, Step(s, portIn).mem, g);
  }

  lemma GroupFramed(m: Mem, m': Mem, g: CleanGroup)
    requires Framed(m, m') && g != Seg
    ensures forall f: Field :: InGroup(g, f) ==> m'[VMCB_FINAL + f] == m[VMCB_FINAL + f]
  {
    forall f: Field | InGroup(g, f) ensures m'[VMCB_FINAL + f] == m[VMCB_FINAL + f] {
      assert !StepField(VMCB_FINAL + f);
    }
  }
}
