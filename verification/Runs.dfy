/** Safety over whole runs of exits, with an arbitrary guest in between. */
module Runs {
  import opened Memory
  import opened Paging
  import opened Vmcb
  import opened MachineState
  import opened GuestMemory
  import opened RealModeStack
  import opened Guest
  import opened Visor
  import opened ExitFrame
  import opened Events
  import opened NestedInterrupts

  // ----- the segment group's clean bit -----

  lemma CleanBitsAfter(s: State, portIn: Dword)
    requires WellFormed(s) && !s.halted
    ensures var m' := Step(s, portIn).mem;
            && VmcbW(m', CLEAN_BITS) == (if ExitCode(s.mem) == VMEXIT_CR0_WRITE then 0xFFDF else 0xFFFF)
            && (ExitCode(s.mem) != VMEXIT_IRET ==> VmcbD(m', CS_BASE) == VmcbD(s.mem, CS_BASE))
  {
    hide Prepare, InterruptExit, IretExit, Cr0WriteExit, ExceptionExit, ExitCode, IntNo, Halts, Only,
         AnsweredByVisor, Cr0Read, Cr3Read, Cr3Written, GuestIo, VmcbW, VmcbD;
    var s1 := s.(mem := Prepare(s.mem));
    PrepareEffect(s.mem);
    if IsInterruptExit(s) {
      EmulatesOrInjects(s, portIn);
    } else {
      ControlRegistersKeep(s1);
      IretKeeps(s1.mem);
      IoKeeps(s1, portIn);
      ExceptionFields(s1.mem, ExitCode(s.mem));
    }
  }

  /** The CS word on top of the guest's stack, which an IRET exit loads. */
  function StackedCs(m: Mem): Word {
    ReadW(m, VmcbW(m, SS_BASE) + VmcbW(m, RSP) + 2)
  }

  /** IP, CS and flags as the three words on top of the guest's stack have them, with IF set and TF
      clear, and SP above these. */
  ghost predicate FrameLoaded(m: Mem, m': Mem) {
    var top: Dword := VmcbW(m, SS_BASE) + VmcbW(m, RSP);
    && VmcbW(m', RIP) == ReadW(m, top)
    && VmcbD(m', CS_BASE) == StackedCs(m) * 0x10
    && VmcbW(m', RFLAGS) == SetIfClearTf(ReadW(m, top + 4))
    && VmcbW(m', RSP) == AddW(VmcbW(m, RSP), 6)
  }

  /** An IRET exit under the visor's tables loads the frame; by StepWrites it changes nothing else. */
  lemma IretLoadsFrame(s: State, portIn: Dword)
    requires WellFormed(s) && ExitCode(s.mem) == VMEXIT_IRET && TablesOk(s.mem)
    ensures FrameLoaded(s.mem, Step(s, portIn).mem)
  {
    hide Prepare, IretExit, VmcbD, VmcbW, TablesOk, Step, ExitCode, ReadW, SetIfClearTf, AddW;
    var m := s.mem;
    IretStep(s, portIn);
    PreparedStack(m);
    PrepareEffect(m);
    IretFields(Prepare(m));
  }

  lemma IretFields(m: Mem)
    requires TablesOk(m)
    ensures FrameLoaded(m, IretExit(m))
  {
    hide PopFrame, PutW, VmcbD, VmcbW, TablesOk, Or100, ReadW, SetIfClearTf, AddW, Untouched;
    ReturnEffect(m);
    var m1 := PopFrame(m);
    PutWEffect(m1, CLEAN_BITS, Or100(VmcbW(m1, CLEAN_BITS)));
  }

  lemma PreparedStack(m: Mem)
    requires TablesOk(m)
    ensures TablesOk(Prepare(m)) && StackedCs(Prepare(m)) == StackedCs(m)
    ensures var top: Dword := VmcbW(m, SS_BASE) + VmcbW(m, RSP);
            ReadW(Prepare(m), top) == ReadW(m, top) && ReadW(Prepare(m), top + 4) == ReadW(m, top + 4)
  {
    hide TablesOk, Prepare, Framed, ReadW;
    FramedPrepare(m);
    PrepareEffect(m);
    FramedTables(m, Prepare(m));
    var top: Dword := VmcbW(m, SS_BASE) + VmcbW(m, RSP);
    FramedStack(m, Prepare(m), top);
    FramedStack(m, Prepare(m), top + 2);
    FramedStack(m, Prepare(m), top + 4);
  }

  lemma FramedTables(m: Mem, m': Mem)
    requires TablesOk(m) && Framed(m, m')
    ensures TablesOk(m')
  {
    hide TablesOk;
    TablesKept(m, m');
  }

  lemma FramedStack(m: Mem, m': Mem, a: Dword)
    requires Framed(m, m') && a < 0x10_0000
    ensures ReadW(m', a) == ReadW(m, a)
  {
  }

  lemma SegSoundWhenCsKept(m: Mem, m': Mem)
    requires Framed(m, m') && (VmcbW(m', CLEAN_BITS) == 0xFFFF || VmcbW(m', CLEAN_BITS) == 0xFFDF)
    ensures CleanBitSound(m, m', Seg) <==> VmcbD(m', CS_BASE) == VmcbD(m, CS_BASE)
  {
    hide ReadW;
    if VmcbD(m', CS_BASE) == VmcbD(m, CS_BASE) {
      SameBytes(m, m', VMCB_FINAL + CS_BASE);
      forall f: Field | InGroup(Seg, f) ensures m'[VMCB_FINAL + f] == m[VMCB_FINAL + f] {
        assert CS_BASE <= f < CS_BASE + 4 || !StepField(VMCB_FINAL + f);
      }
    }
    if CleanBitSound(m, m', Seg) {
      assert forall f: Field :: InGroup(Seg, f) ==> m'[VMCB_FINAL + f] == m[VMCB_FINAL + f];
      assert InGroup(Seg, CS_BASE) && InGroup(Seg, CS_BASE + 1) && InGroup(Seg, CS_BASE + 2) &&
             InGroup(Seg, CS_BASE + 3);
    }
  }

  lemma SameBytes(m: Mem, m': Mem, a: Dword)
    requires ReadD(m', a) == ReadD(m, a) && a + 4 <= MEM_SIZE
    ensures m'[a] == m[a] && m'[a + 1] == m[a + 1] && m'[a + 2] == m[a + 2] && m'[a + 3] == m[a + 3]
  {
    hide ByteOf, ReadD;
    BytesOfRead(m, Bits32, a);
    BytesOfRead(m', Bits32, a);
    var r, r' := Read(m, Bits32, a), Read(m', Bits32, a);
    assert ByteOf(r, 0) == ByteOf(r', 0) && ByteOf(r, 1) == ByteOf(r', 1) && ByteOf(r, 2) == ByteOf(r', 2) &&
           ByteOf(r, 3) == ByteOf(r', 3);
  }

  /** The segment group's clean bit stays set on every exit, so it is sound exactly when CS
      does not change: on any exit but IRET, and on IRET when the stacked CS is the old one. */
  lemma SegCleanBitSoundExactlyWhen(s: State, portIn: Dword)
    requires WellFormed(s) && !s.halted && !(s.pmode && s.paging) && TablesOk(s.mem)
    ensures CleanBitSound(s.mem, Step(s, portIn).mem, Seg) <==>
            (ExitCode(s.mem) != VMEXIT_IRET || VmcbD(s.mem, CS_BASE) == StackedCs(s.mem) * 0x10)
  {
    hide Step, VmcbD, VmcbW, TablesOk, Framed, StackedCs, CleanBitSound, ExitCode, ReadW, SetIfClearTf, AddW;
    CleanBitsAfter(s, portIn);
    StepFrame(s, portIn);
    SegSoundWhenCsKept(s.mem, Step(s, portIn).mem);
    if ExitCode(s.mem) == VMEXIT_IRET {
      IretLoadsFrame(s, portIn);
    }
  }

  lemma IretStep(s: State, portIn: Dword)
    requires WellFormed(s) && ExitCode(s.mem) == VMEXIT_IRET
    ensures Step(s, portIn).mem == IretExit(Prepare(s.mem))
  {
    hide IretExit, Prepare, VmcbD, VmcbW;
  }

  // ----- runs -----

  /** The visor's shadow state as it starts: neither protected mode nor paging noted. */
  ghost predicate Initial(s: State) {
    WellFormed(s) && !s.pmode && !s.paging && s.requestedCr0 == GUEST_INITIAL_CR0
  }

  /** However the guest behaves, no exit ever marks protected mode or paging on or changes the
      shadow CR0. */
  lemma {:induction false} FlagsNeverChange(s: State, es: seq<Exit>)
    requires Initial(s) && ExitsOk(es)
    ensures Initial(Run(s, es))
    decreases es
  {
    hide Step;
    if es != [] {
      var t, e := Run(s, es[..|es| - 1]), es[|es| - 1];
      FlagsNeverChange(s, es[..|es| - 1]);
      StepFrame(Entered(t, e), e.portIn);
    }
  }

  /** On every turn of every run the visor's writes stay within the step fields: CR0, CR3, CR4,
      EFER, the nested CR3, the IOPM base, the intercepts and all guest memory are what VMRUN
      left, and the clean bits of every group but the segments are sound. */
  lemma EveryTurnIsFramed(s: State, es: seq<Exit>, i: nat, g: CleanGroup)
    requires Initial(s) && ExitsOk(es) && i < |es| && !Run(s, es[..i]).halted
    ensures var t, t' := Run(s, es[..i]).(mem := es[i].mem, regs := es[i].regs), Run(s, es[..i + 1]);
            && Only(t.mem, t'.mem, ON_EVERY_EXIT + Writes(t)) && OwnState(t, t') && Framed(t.mem, t'.mem)
            && (g != Seg ==> CleanBitSound(t.mem, t'.mem, g))
  {
    hide Step, Framed, CleanBitSound, Only, Writes, OwnState;
    FlagsNeverChange(s, es[..i]);
    assert es[..i + 1][..i] == es[..i] && es[..i + 1][i] == es[i];
    var t := Entered(Run(s, es[..i]), es[i]);
    StepWrites(t, es[i].portIn);
    StepFrame(t, es[i].portIn);
    if g != Seg {
      CleanBitsAreSound(t, es[i].portIn, g);
    }
  }

  /** The exit codes the dispatcher has a case for that lets the guest go on. */
  predicate Handled(code: Word) {
    0x40 <= code <= 0x60 || code in {0x00, 0x03, 0x10, 0x13, 0x74, 0x75, 0x78, 0x7B, 0x400}
  }

  /** An exit stops the machine for good exactly when its code has no such case (shutdown and NMI
      among them) or it is a HLT with interrupts off. */
  lemma HaltsExactlyWhen(s: State, portIn: Dword)
    requires WellFormed(s) && !s.halted
    ensures Step(s, portIn).halted <==>
            !Handled(ExitCode(s.mem)) || (ExitCode(s.mem) == VMEXIT_HLT && VmcbW(s.mem, RFLAGS) / 0x200 % 2 == 0)
  {
    hide Prepare, ExitCode, IntNo, InterruptExit, IretExit, Cr0WriteExit, ExceptionExit, Cr0Read, Cr3Read, Cr3Written,
         GuestIo, VmcbW;
    PrepareEffect(s.mem);
    HandlersDoNotHalt(s.(mem := Prepare(s.mem)), IntNo(s.mem), portIn);
  }

  /** The kinds of exit that call for no work: nested and ordinary page faults, exceptions other than
      the four reflected, HLT, and every code the dispatcher has no case for. */
  predicate NoWork(code: Word) {
    code !in {0x00, 0x03, 0x10, 0x13, 0x41, 0x43, 0x46, 0x4D, 0x60, 0x74, 0x75, 0x7B}
  }

  /** Such an exit changes nothing anywhere but the fields written on every exit: the guest is resumed
      where it was, on a HLT too, or the machine halts. */
  lemma NoWorkChangesNothing(s: State, portIn: Dword)
    requires WellFormed(s) && !s.halted && NoWork(ExitCode(s.mem))
    ensures var s' := Step(s, portIn);
            && s' == s.(mem := s'.mem, halted := s'.halted)
            && Only(s.mem, s'.mem, {Part(EVENT_VALID, 4), Part(CLEAN_BITS, 2)})
            && VmcbD(s'.mem, EVENT_VALID) == 0 && VmcbW(s'.mem, CLEAN_BITS) == 0xFFFF
            && (s'.halted <==> !Handled(ExitCode(s.mem)) ||
                               (ExitCode(s.mem) == VMEXIT_HLT && s.mem[VMCB_FINAL + RFLAGS + 1] / 2 % 2 == 0))
  {
    hide Only, VmcbW, VmcbD, Step, Delivers, AnsweredByVisor;
    StepWrites(s, portIn);
    HaltsExactlyWhen(s, portIn);
    CleanBitsAfter(s, portIn);
    StepDeliversIntendedEvent(s, portIn);
    NoEvent(s, Step(s, portIn).mem);
    FirstBytes(s.mem, RFLAGS);
    assert ON_EVERY_EXIT + Writes(s) == ON_EVERY_EXIT;
  }

  lemma NoEvent(s: State, m': Mem)
    requires WellFormed(s) && NoWork(ExitCode(s.mem)) && Delivers(s, m')
    ensures VmcbD(m', EVENT_VALID) == 0
  {
    hide VmcbW, VmcbD, AnsweredByVisor, Decode;
  }

  lemma HandlersDoNotHalt(s: State, n: Byte, portIn: Dword)
    requires WellFormed(s)
    ensures InterruptExit(s, n).halted == s.halted && GuestIo(s, portIn).halted == s.halted
    ensures Cr0Read(s).halted == s.halted && Cr3Read(s).halted == s.halted && Cr3Written(s).halted == s.halted
  {
    hide InterruptExit, GuestIo, SetRegister, GetRegister, PutD, AdvanceIp, ReadW, TranslateGuestPhysicalAddress;
    InterruptRunsOn(s, n);
    IoRunsOn(s, portIn);
    forall v: Dword, w: Width {:trigger SetRegister(s, 2, v, w)} ensures SetRegister(s, 2, v, w).halted == s.halted {
      RegisterRunsOn(s, v, w);
    }
  }

  lemma InterruptRunsOn(s: State, n: Byte)
    requires WellFormed(s)
    ensures InterruptExit(s, n).halted == s.halted
  {
    hide PutW, Emulates, ClearCarry, SetCarry, InjectInterrupt, VmcbW, OrFeff;
  }

  lemma IoRunsOn(s: State, portIn: Dword)
    requires WellFormed(s)
    ensures GuestIo(s, portIn).halted == s.halted
  {
    hide PutB, PutW, Write, VmcbW, VmcbD, IoPort, IoIsIn, IoWidth, CmosByte, CmosIndex, ForwardedOut;
  }

  lemma RegisterRunsOn(s: State, v: Dword, w: Width)
    requires WellFormed(s)
    ensures SetRegister(s, 2, v, w).halted == s.halted
  {
    hide Write, TargetRegister, Truncate;
  }

  /** Once in the infinite loop, the machine stays as it is. */
  lemma {:induction false} HaltedForGood(s: State, es: seq<Exit>, fs: seq<Exit>)
    requires WellFormed(s) && ExitsOk(es) && ExitsOk(fs) && Run(s, es).halted
    ensures ExitsOk(es + fs) && Run(s, es + fs) == Run(s, es)
    decreases fs
  {
    hide Step;
    if fs == [] {
      assert es + fs == es;
    } else {
      HaltedForGood(s, es, fs[..|fs| - 1]);
      assert (es + fs)[..|es + fs| - 1] == es + fs[..|fs| - 1];
    }
  }
}
