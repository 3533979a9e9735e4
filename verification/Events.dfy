/** What an exit hands back to the guest: emulated or injected interrupts, reflected
    exceptions, and the decoding of every EVENTINJ value written. */
module Events {
  import opened Memory
  import opened Paging
  import opened Vmcb
  import opened MachineState
  import opened GuestMemory
  import opened RealModeStack
  import opened Guest
  import opened Visor

  lemma PrepareEffect(m: Mem)
    ensures VmcbD(Prepare(m), EVENT_VALID) == 0 && VmcbW(Prepare(m), CLEAN_BITS) == 0xFFFF
    ensures forall g: Field {:trigger VmcbW(Prepare(m), g)} ::
              (g + 2 <= EVENT_VALID || EVENT_VALID + 4 <= g) && (g + 2 <= CLEAN_BITS || CLEAN_BITS + 2 <= g) ==>
                VmcbW(Prepare(m), g) == VmcbW(m, g)
    ensures forall g: Field {:trigger VmcbD(Prepare(m), g)} ::
              (g + 4 <= EVENT_VALID || EVENT_VALID + 4 <= g) && (g + 4 <= CLEAN_BITS || CLEAN_BITS + 2 <= g) ==>
                VmcbD(Prepare(m), g) == VmcbD(m, g)
  {
    hide PutW, PutD, VmcbW, VmcbD;
    PutDEffect(m, EVENT_VALID, 0);
    PutWEffect(PutD(m, EVENT_VALID, 0), CLEAN_BITS, 0xFFFF);
  }

  ghost predicate KeepsEvent(m: Mem, m': Mem) {
    VmcbD(m', EVENTINJ) == VmcbD(m, EVENTINJ) && VmcbD(m', EVENT_VALID) == VmcbD(m, EVENT_VALID)
  }

  /** Clean bits and CS base as they were. */
  ghost predicate KeepsClean(m: Mem, m': Mem) {
    VmcbW(m', CLEAN_BITS) == VmcbW(m, CLEAN_BITS) && VmcbD(m', CS_BASE) == VmcbD(m, CS_BASE)
  }

  // ----- what every exit writes -----

  const ON_EVERY_EXIT: set<Part> := {Part(EVENT_VALID, 4), Part(CLEAN_BITS, 2)}

  lemma OnlyPrepare(m: Mem)
    ensures Only(m, Prepare(m), ON_EVERY_EXIT)
  {
    hide Only, PutW, PutD;
    OnlyItself(m, ON_EVERY_EXIT);
    OnlyPutD(m, m, ON_EVERY_EXIT, Part(EVENT_VALID, 4), 0);
    OnlyPutW(m, PutD(m, EVENT_VALID, 0), ON_EVERY_EXIT, Part(CLEAN_BITS, 2), 0xFFFF);
  }

  lemma OnlyAfterPrepare(m: Mem, m': Mem, ps: set<Part>, qs: set<Part>)
    requires Only(Prepare(m), m', ps) && ON_EVERY_EXIT + ps == qs
    ensures Only(m, m', qs)
  {
    hide Only, Prepare;
    OnlyPrepare(m);
    OnlyThen(m, Prepare(m), m', ON_EVERY_EXIT, ps);
  }

  // ----- software interrupts -----

  /** The calls the visor answers itself, by the bytes the guest and the processor leave: INT 15h
      AH=88h (extended memory size), and INT 13h AH=x8h (drive parameters) with DL=80h, the first
      hard disk. */
  predicate AnsweredByVisor(s: State)
    requires WellFormed(s)
  {
    var vector, ah, dl := s.mem[VMCB_FINAL + EXITINFO1], s.mem[VMCB_FINAL + RAX + 1], s.regs[2] % 0x100;
    || (vector == 0x15 && ah == 0x88)
    || (vector == 0x13 && ah % 0x10 == 8 && dl == 0x80)
  }

  lemma FirstBytes(m: Mem, f: Field)
    ensures VmcbD(m, f) % 0x100 == m[VMCB_FINAL + f] && VmcbW(m, f) / 0x100 == m[VMCB_FINAL + f + 1]
  {
  }

  /** The dispatcher's masks pick out exactly these calls. */
  lemma EmulatesWhatItAnswers(s: State)
    requires WellFormed(s)
    ensures IntNo(s.mem) == s.mem[VMCB_FINAL + EXITINFO1]
    ensures Emulates(s, IntNo(s.mem)) <==> AnsweredByVisor(s)
  {
    hide VmcbW, VmcbD;
    FirstBytes(s.mem, EXITINFO1);
    FirstBytes(s.mem, RAX);
  }

  /** The exit did the interrupt's work: AX and the registers hold the answer, carry is clear and
      the other flags kept, the instruction is skipped, and nothing is left to deliver that was
      not there before.  Nothing else changes. */
  ghost predicate EmulatedOutcome(s: State, s': State)
    requires WellFormed(s)
  {
    var m, m' := s.mem, s'.mem;
    var sizeAsked := m[VMCB_FINAL + EXITINFO1] == 0x15;
    && VmcbW(m', RIP) == VmcbW(m, NRIP)
    && VmcbD(m', RFLAGS) == VmcbD(m, RFLAGS) - VmcbD(m, RFLAGS) % 2
    && VmcbD(m', EVENTINJ) == VmcbD(m, EVENTINJ) && VmcbD(m', EVENT_VALID) == 0
    && VmcbW(m', CLEAN_BITS) == 0xFFFF && VmcbD(m', CS_BASE) == VmcbD(m, CS_BASE)
    && VmcbW(m', RAX) == (if sizeAsked then 0xC00 else 0)
    && Only(m, m', ON_EVERY_EXIT + {Part(RAX, 2), Part(RFLAGS, 4), Part(RIP, 2)})
    && s' == s.(mem := m', regs := if sizeAsked then s.regs else s.regs[0 := 0][1 := 0x037F][2 := 0x0F01])
  }

  /** The exit left the interrupt's work to the guest's own handler: the interrupt is pending, the
      instruction skipped, and nothing else changes. */
  ghost predicate InjectedOutcome(s: State, s': State) {
    var m, m' := s.mem, s'.mem;
    var vector: int := m[VMCB_FINAL + EXITINFO1];
    && VmcbW(m', RIP) == VmcbW(m, NRIP)
    && VmcbD(m', EVENTINJ) == 0x8000_0400 + vector && VmcbD(m', EVENT_VALID) == 0
    && VmcbW(m', CLEAN_BITS) == 0xFFFF && VmcbD(m', CS_BASE) == VmcbD(m, CS_BASE)
    && Only(m, m', ON_EVERY_EXIT + {Part(EVENTINJ, 4), Part(RIP, 2)})
    && s' == s.(mem := m')
  }

  ghost predicate IsInterruptExit(s: State) {
    ExitCode(s.mem) == VMEXIT_SWINT || ExitCode(s.mem) == VMEXIT_INTR
  }

  predicate EventPending(m: Mem) { VmcbD(m, EVENTINJ) >= 0x8000_0000 }

  /** A software-interrupt exit answers exactly the calls the visor answers itself and injects every
      other vector, AH and DL.  Since an answer does not write EVENTINJ's low half, nothing is
      pending after it as long as the processor left nothing pending. */
  lemma EmulatesOrInjects(s: State, portIn: Dword)
    requires WellFormed(s) && IsInterruptExit(s)
    ensures if AnsweredByVisor(s) then EmulatedOutcome(s, Step(s, portIn)) else InjectedOutcome(s, Step(s, portIn))
    ensures !EventPending(s.mem) ==> (EventPending(Step(s, portIn).mem) <==> !AnsweredByVisor(s))
  {
    hide Prepare, InterruptExit, ExitCode, IntNo, PutW, VmcbW, VmcbD, IsException, Halts, Only, AnsweredByVisor;
    var s1, n := s.(mem := Prepare(s.mem)), IntNo(s.mem);
    PrepareEffect(s.mem);
    EmulatesWhatItAnswers(s);
    if AnsweredByVisor(s) {
      EmulatedFields(s1, n);
      var ps := {Part(CLEAN_BITS, 2), Part(RAX, 2), Part(RFLAGS, 4), Part(RIP, 2)};
      OnlyAfterPrepare(s.mem, Step(s, portIn).mem, ps, ON_EVERY_EXIT + {Part(RAX, 2), Part(RFLAGS, 4), Part(RIP, 2)});
    } else {
      InjectFields(s1.mem, n);
      InjectedExit(s1, n);
      var ps := {Part(EVENTINJ, 4), Part(RIP, 2)};
      OnlyAfterPrepare(s.mem, Step(s, portIn).mem, ps, ON_EVERY_EXIT + ps);
    }
  }

  lemma InjectedExit(s: State, n: Byte)
    requires WellFormed(s) && !Emulates(s, n)
    ensures InterruptExit(s, n) == s.(mem := InjectInterrupt(s.mem, n))
  {
    hide VmcbW, RealModeInterrupt, InjectInterrupt, PutW;
  }

  lemma InjectFields(m: Mem, n: Byte)
    ensures var m' := InjectInterrupt(m, n);
            && VmcbW(m', RIP) == VmcbW(m, NRIP) && VmcbD(m', EVENTINJ) == 0x8000_0400 + n
            && VmcbD(m', EVENT_VALID) == VmcbD(m, EVENT_VALID) && VmcbW(m', CLEAN_BITS) == VmcbW(m, CLEAN_BITS)
            && VmcbD(m', CS_BASE) == VmcbD(m, CS_BASE)
            && Only(m, m', {Part(EVENTINJ, 4), Part(RIP, 2)})
  {
    hide PutW, PutD, VmcbW, VmcbD, Only;
    var m1 := PutW(m, RIP, VmcbW(m, NRIP));
    PutWEffect(m, RIP, VmcbW(m, NRIP));
    PutDEffect(m1, EVENTINJ, 0x8000_0400 + n);
    var ps := {Part(EVENTINJ, 4), Part(RIP, 2)};
    OnlyItself(m, ps);
    OnlyPutW(m, m, ps, Part(RIP, 2), VmcbW(m, NRIP));
    OnlyPutD(m, m1, ps, Part(EVENTINJ, 4), 0x8000_0400 + n);
  }

  /** v in AX and the carry flag as given; IP, event, clean bits and CS kept, nothing else changed. */
  ghost predicate WithAnswer(m: Mem, m': Mem, v: Word, carry: int) {
    && VmcbW(m', RAX) == v && VmcbD(m', RFLAGS) == VmcbD(m, RFLAGS) - VmcbD(m, RFLAGS) % 2 + carry
    && VmcbW(m', RIP) == VmcbW(m, RIP) && VmcbW(m', NRIP) == VmcbW(m, NRIP)
    && KeepsEvent(m, m') && KeepsClean(m, m')
    && Only(m, m', {Part(RAX, 2), Part(RFLAGS, 4)})
  }

  lemma AnswerFields(m: Mem, v: Word)
    ensures var m1 := PutW(m, RAX, v);
            && WithAnswer(m, m1, v, VmcbD(m, RFLAGS) % 2)
            && WithAnswer(m, ClearCarry(m1), v, 0) && WithAnswer(m, SetCarry(m1), v, 1)
  {
    hide PutW, PutD, VmcbW, VmcbD, Only;
    var m1 := PutW(m, RAX, v);
    PutWEffect(m, RAX, v);
    var flags: Dword := VmcbD(m1, RFLAGS) - VmcbD(m1, RFLAGS) % 2;
    PutDEffect(m1, RFLAGS, flags);
    PutDEffect(m1, RFLAGS, flags + 1);
    var ps := {Part(RAX, 2), Part(RFLAGS, 4)};
    OnlyItself(m, ps);
    OnlyPutW(m, m, ps, Part(RAX, 2), v);
    OnlyPutD(m, m1, ps, Part(RFLAGS, 4), flags);
    OnlyPutD(m, m1, ps, Part(RFLAGS, 4), flags + 1);
  }

  /** Between the preparation and the resumption. */
  ghost predicate Emulated(s: State, n: Byte, s': State)
    requires WellFormed(s)
  {
    var m, m' := s.mem, s'.mem;
    && VmcbW(m', RIP) == VmcbW(m, NRIP)
    && VmcbD(m', RFLAGS) == VmcbD(m, RFLAGS) - VmcbD(m, RFLAGS) % 2
    && KeepsEvent(m, m') && KeepsClean(m, m')
    && VmcbW(m', RAX) == (if n == 0x15 then 0xC00 else 0)
    && Only(m, m', {Part(CLEAN_BITS, 2), Part(RAX, 2), Part(RFLAGS, 4), Part(RIP, 2)})
    && s' == s.(mem := m', regs := if n == 0x15 then s.regs else s.regs[0 := 0][1 := 0x037F][2 := 0x0F01])
  }

  lemma EmulatedFields(s: State, n: Byte)
    requires WellFormed(s) && Emulates(s, n) && VmcbW(s.mem, CLEAN_BITS) == 0xFFFF
    ensures Emulated(s, n, InterruptExit(s, n))
  {
    hide PutW, PutD, VmcbW, VmcbD, InjectInterrupt, Only, ClearCarry, SetCarry;
    var m := s.mem;
    var v: Word := if n == 0x15 then 0xC00 else 0;
    EmulatedBranch(s, n);
    var m2 := ClearCarry(PutW(m, RAX, v));
    AnswerFields(m, v);
    var m3 := PutW(m2, CLEAN_BITS, 0xFFFF);
    PutWEffect(m2, CLEAN_BITS, 0xFFFF);
    PutWEffect(m3, RIP, VmcbW(m3, NRIP));
    var ps := {Part(CLEAN_BITS, 2), Part(RAX, 2), Part(RFLAGS, 4), Part(RIP, 2)};
    OnlyMore(m, m2, {Part(RAX, 2), Part(RFLAGS, 4)}, ps);
    OnlyPutW(m, m2, ps, Part(CLEAN_BITS, 2), 0xFFFF);
    OnlyPutW(m, m3, ps, Part(RIP, 2), VmcbW(m3, NRIP));
  }

  /** The dispatcher's test implies the branch of HandleRealModeSWInterrupt that does not
      inject. */
  lemma EmulatedBranch(s: State, n: Byte)
    requires WellFormed(s) && Emulates(s, n)
    ensures RealModeInterrupt(s, n) ==
            s.(mem := ClearCarry(PutW(s.mem, RAX, if n == 0x15 then 0xC00 else 0)),
               regs := if n == 0x15 then s.regs else s.regs[0 := 0][1 := 0x037F][2 := 0x0F01])
  {
    hide PutW, VmcbW, ClearCarry, SetCarry, InjectInterrupt;
    var ax := VmcbW(s.mem, RAX);
    assert ax / 0x800 == ax / 0x100 / 8;
  }

  /** Whether HandleRealModeSWInterrupt answers the interrupt itself. */
  predicate Answers(vector: Word, ax: Word) {
    || vector == 0x11 || vector == 0x12
    || (vector == 0x13 && ax / 0x800 % 2 == 1)
    || (vector == 0x15 && (ax / 0x100 == 0x88 || ax == 0xE820 || ax == 0xE802 || ax == 0xE801))
  }

  /** The answer in AX: the equipment word, the memory size, success, or an error status. */
  function Answer(vector: Word, ax: Word): Word {
    if vector == 0x11 then 0x0122
    else if vector == 0x12 then 0x27F
    else if vector == 0x13 then 0
    else if ax / 0x100 == 0x88 then 0xC00
    else 0x8600 + ax % 0x100
  }

  /** The carry flag of the answer: cleared for the disk and the memory size, set for the calls
      refused, kept otherwise. */
  function AnsweredCarry(vector: Word, m: Mem): nat {
    if vector == 0x13 then 0
    else if vector == 0x15 then (if VmcbW(m, RAX) / 0x100 == 0x88 then 0 else 1)
    else VmcbD(m, RFLAGS) % 2
  }

  /** The handler on any vector: either it answers in AX, with the carry flag as the answer
      needs it, the drive parameters in the registers, and no event, or it injects exactly this
      vector and skips the instruction; and it changes nothing else. */
  lemma HandlerAnswersOrInjects(s: State, vector: Word)
    requires WellFormed(s)
    ensures HandlerOutcome(s, vector, RealModeInterrupt(s, vector))
  {
    hide PutW, PutD, VmcbW, VmcbD, InjectInterrupt, ClearCarry, SetCarry, Only, RealModeInterrupt, WithAnswer;
    var ax := VmcbW(s.mem, RAX);
    HandlerBranch(s, vector);
    if Answers(vector, ax) {
      AnswerFields(s.mem, Answer(vector, ax));
    } else {
      InjectFields(s.mem, vector % 0x100);
    }
  }

  lemma HandlerBranch(s: State, vector: Word)
    requires WellFormed(s)
    ensures var ax, s' := VmcbW(s.mem, RAX), RealModeInterrupt(s, vector);
            if !Answers(vector, ax) then s' == s.(mem := InjectInterrupt(s.mem, vector % 0x100)) else
              var m1, carry := PutW(s.mem, RAX, Answer(vector, ax)), AnsweredCarry(vector, s.mem);
              && s'.mem == (if vector < 0x13 then m1 else if carry == 0 then ClearCarry(m1) else SetCarry(m1))
              && s' == s.(mem := s'.mem,
                          regs := if vector == 0x13 then s.regs[0 := 0][1 := 0x037F][2 := 0x0F01] else s.regs)
  {
    hide PutW, PutD, VmcbW, VmcbD, InjectInterrupt, ClearCarry, SetCarry;
  }

  ghost predicate HandlerOutcome(s: State, vector: Word, s': State)
    requires WellFormed(s)
  {
    var m, m', ax := s.mem, s'.mem, VmcbW(s.mem, RAX);
    if Answers(vector, ax) then
      && WithAnswer(m, m', Answer(vector, ax), AnsweredCarry(vector, m))
      && s' == s.(mem := m', regs := if vector == 0x13 then s.regs[0 := 0][1 := 0x037F][2 := 0x0F01] else s.regs)
    else
      && VmcbW(m', RIP) == VmcbW(m, NRIP) && VmcbD(m', EVENTINJ) == 0x8000_0400 + vector % 0x100
      && Only(m, m', {Part(EVENTINJ, 4), Part(RIP, 2)})
      && s' == s.(mem := m')
  }

  // ----- the event handed to the guest -----

  /** The fields of EVENTINJ (APM Volume 2, section 15.20). */
  datatype Injection = Injection(valid: bool, reserved: nat, hasError: bool, kind: nat, vector: nat, error: Dword)

  function Decode(low: Dword, high: Dword): Injection {
    Injection(low / 0x8000_0000 == 1, low / 0x1000 % 0x8_0000, low / 0x800 % 2 == 1, low / 0x100 % 8, low % 0x100, high)
  }

  const KIND_INTR := 0
  const KIND_EXCEPTION := 3
  const KIND_SOFTWARE_INTERRUPT := 4

  datatype Option<T> = None | Some(value: T)

  function Plain(kind: nat, vector: nat): Option<Injection> {
    Some(Injection(true, 0, false, kind, vector, 0))
  }

  /** The event each exit is meant to deliver: software interrupts the visor does not emulate, and
      of the exceptions #DB (as an interrupt), #BP, #UD and #GP.  A #GP raised while delivering
      a software interrupt carries the selector-style error code of that IDT entry, 8 * vector +
      2, any other #GP its own. */
  function Intended(s: State): Option<Injection>
    requires WellFormed(s)
  {
    var m := s.mem;
    var code := ExitCode(m);
    if code == VMEXIT_SWINT || code == VMEXIT_INTR then
      if AnsweredByVisor(s) then None else Plain(KIND_SOFTWARE_INTERRUPT, m[VMCB_FINAL + EXITINFO1])
    else if code == VMEXIT_EXCEPTION_01 then Plain(KIND_INTR, 1)
    else if code == VMEXIT_EXCEPTION_03 then Plain(KIND_EXCEPTION, 3)
    else if code == VMEXIT_EXCEPTION_06 then Plain(KIND_EXCEPTION, 6)
    else if code == VMEXIT_EXCEPTION_13 then
      Some(Injection(true, 0, true, KIND_EXCEPTION, 13,
                     if DuringDelivery(m) then 8 * (VmcbD(m, EXITINTINFO) % 0x100) + 2 else VmcbD(m, EXITINFO1)))
    else None
  }

  /** EXITINTINFO's valid bit (APM Volume 2, section 15.7.2). */
  predicate DuringDelivery(m: Mem) { VmcbD(m, EXITINTINFO) >= 0x8000_0000 }

  ghost predicate Delivers(s: State, m': Mem)
    requires WellFormed(s)
  {
    match Intended(s)
    case Some(i) => Decode(VmcbD(m', EVENTINJ), VmcbD(m', EVENT_VALID)) == i
    case None => VmcbD(m', EVENTINJ) == VmcbD(s.mem, EVENTINJ) && VmcbD(m', EVENT_VALID) == 0
  }

  lemma DecodeSimple(kind: nat, vector: Byte)
    requires kind < 8
    ensures Decode(0x8000_0000 + 0x100 * kind + vector, 0) == Injection(true, 0, false, kind, vector, 0)
  {
    var low: int := 0x8000_0000 + 0x100 * kind + vector;
    assert low / 0x100 == 0x80_0000 + kind;
    assert low / 0x800 == low / 0x100 / 8 && low / 0x1000 == low / 0x100 / 0x10 == 0x8_0000;
  }

  lemma DecodeGp(error: Dword)
    ensures Decode(0x8000_0B0D, error) == Injection(true, 0, true, 3, 13, error)
  {
  }

  lemma ExceptionFields(m: Mem, code: Word)
    ensures var m' := ExceptionExit(m, code);
            && (code == VMEXIT_EXCEPTION_01 ==>
                VmcbD(m', EVENTINJ) == 0x8000_0001 && VmcbD(m', EVENT_VALID) == VmcbD(m, EVENT_VALID))
            && (code == VMEXIT_EXCEPTION_03 ==>
                VmcbD(m', EVENTINJ) == 0x8000_0303 && VmcbD(m', EVENT_VALID) == VmcbD(m, EVENT_VALID))
            && (code == VMEXIT_EXCEPTION_06 ==>
                VmcbD(m', EVENTINJ) == 0x8000_0306 && VmcbD(m', EVENT_VALID) == VmcbD(m, EVENT_VALID))
            && (code == VMEXIT_EXCEPTION_13 ==>
                  && VmcbD(m', EVENTINJ) == 0x8000_0B0D
                  && VmcbD(m', EVENT_VALID) ==
                       (if DuringDelivery(m) then 8 * (VmcbD(m, EXITINTINFO) % 0x100) + 2 else VmcbD(m, EXITINFO1))
                  && VmcbW(m', RIP) == (if DuringDelivery(m) then SubW(VmcbW(m, RIP), 2) else VmcbW(m, RIP)))
            && (code !in {VMEXIT_EXCEPTION_01, VMEXIT_EXCEPTION_03, VMEXIT_EXCEPTION_06, VMEXIT_EXCEPTION_13} ==>
                  m' == m)
            && KeepsClean(m, m')
  {
    hide PutW, PutD, VmcbW, VmcbD, SubW;
    PutDEffect(m, EVENTINJ, 0x8000_0001);
    PutDEffect(m, EVENTINJ, 0x8000_0303);
    PutDEffect(m, EVENTINJ, 0x8000_0306);
    PutDEffect(m, EVENTINJ, 0x8000_0B0D);
    var m1 := PutD(m, EVENTINJ, 0x8000_0B0D);
    var v: Dword := VmcbD(m, EXITINTINFO) % 0x100 * 8 + 2;
    PutDEffect(m1, EVENT_VALID, v);
    PutDEffect(m1, EVENT_VALID, VmcbD(m, EXITINFO1));
    var m2 := PutD(m1, EVENT_VALID, v);
    PutWEffect(m2, RIP, SubW(VmcbW(m2, RIP), 2));
  }

  lemma RegisterWriteKeeps(m: Mem, w: Width, f: Field, v: Dword)
    requires f == RAX || f == RIP
    ensures KeepsEvent(m, Write(m, w, VMCB_FINAL + f, v)) && KeepsClean(m, Write(m, w, VMCB_FINAL + f, v))
  {
    hide VmcbW, VmcbD, WriteB, WriteW, WriteD;
    PutLowByte(m, f, v % 0x100);
    PutWEffect(m, f, v % 0x1_0000);
    PutDEffect(m, f, v);
  }

  lemma AdvanceKeeps(m0: Mem, m: Mem, count: Byte)
    requires KeepsEvent(m0, m) && KeepsClean(m0, m)
    ensures KeepsEvent(m0, AdvanceIp(m, count)) && KeepsClean(m0, AdvanceIp(m, count))
  {
    hide VmcbW, VmcbD, PutW, AddW;
    PutWEffect(m, RIP, AddW(VmcbW(m, RIP), count));
  }

  lemma SetRegisterKeeps(s: State, v: Dword, w: Width)
    requires WellFormed(s)
    ensures KeepsEvent(s.mem, SetRegister(s, 2, v, w).mem) && KeepsClean(s.mem, SetRegister(s, 2, v, w).mem)
  {
    hide VmcbD, VmcbW, Write, TargetRegister, Truncate;
    RegisterWriteKeeps(s.mem, w, RAX, v);
    RegisterWriteKeeps(s.mem, w, RIP, v);
  }

  lemma ControlRegistersKeep(s: State)
    requires WellFormed(s)
    ensures KeepsEvent(s.mem, Cr0Read(s).mem) && KeepsClean(s.mem, Cr0Read(s).mem)
    ensures KeepsEvent(s.mem, Cr3Read(s).mem) && KeepsClean(s.mem, Cr3Read(s).mem)
    ensures KeepsEvent(s.mem, Cr3Written(s).mem) && KeepsClean(s.mem, Cr3Written(s).mem)
    ensures KeepsEvent(s.mem, Cr0WriteExit(s.mem)) && VmcbW(Cr0WriteExit(s.mem), CLEAN_BITS) == 0xFFDF
    ensures VmcbD(Cr0WriteExit(s.mem), CS_BASE) == VmcbD(s.mem, CS_BASE)
  {
    hide VmcbD, VmcbW, SetRegister, GetRegister, AdvanceIp, PutW, PutD, ReadW, TranslateGuestPhysicalAddress;
    forall w: Width, v: Dword {:trigger SetRegister(s, 2, v, w)}
      ensures KeepsEvent(s.mem, AdvanceIp(SetRegister(s, 2, v, w).mem, 3)) &&
              KeepsClean(s.mem, AdvanceIp(SetRegister(s, 2, v, w).mem, 3))
    {
      SetRegisterKeeps(s, v, w);
      AdvanceKeeps(s.mem, SetRegister(s, 2, v, w).mem, 3);
    }
    var v := GetRegister(s, 2, Bits32);
    PutDEffect(s.mem, SAVE_STATE_CR3, v);
    AdvanceKeeps(s.mem, PutD(s.mem, SAVE_STATE_CR3, v), 3);
    AdvanceKeeps(s.mem, s.mem, 3);
    var m1 := PutW(s.mem, CLEAN_BITS, 0xFFDF);
    PutWEffect(s.mem, CLEAN_BITS, 0xFFDF);
    PutDEffect(m1, RIP, VmcbD(m1, NRIP));
  }

  lemma IretKeeps(m: Mem)
    ensures KeepsEvent(m, IretExit(m)) && VmcbW(IretExit(m), CLEAN_BITS) == Or100(VmcbW(m, CLEAN_BITS))
  {
    hide PutW, PutD, VmcbW, VmcbD, GuestW, AddW, Add, SetIfClearTf, Or100;
    var top := Add(VmcbW(m, SS_BASE), VmcbW(m, RSP));
    var f := SetIfClearTf(GuestW(m, Add(top, 4)));
    var m1 := PutW(m, RFLAGS, f);
    PutWEffect(m, RFLAGS, f);
    var m2 := PutD(m1, CS_BASE, GuestW(m1, Add(top, 2)) * 0x10);
    PutDEffect(m1, CS_BASE, GuestW(m1, Add(top, 2)) * 0x10);
    var m3 := PutW(m2, RIP, GuestW(m2, top));
    PutWEffect(m2, RIP, GuestW(m2, top));
    var m4 := PutW(m3, RSP, AddW(VmcbW(m3, RSP), 6));
    PutWEffect(m3, RSP, AddW(VmcbW(m3, RSP), 6));
    PutWEffect(m4, CLEAN_BITS, Or100(VmcbW(m4, CLEAN_BITS)));
  }

  lemma IoKeeps(s: State, portIn: Dword)
    requires WellFormed(s)
    ensures KeepsEvent(s.mem, GuestIo(s, portIn).mem) && KeepsClean(s.mem, GuestIo(s, portIn).mem)
  {
    hide PutB, PutW, VmcbW, VmcbD, Write, IoPort, IoIsIn, IoWidth, ForwardedOut, CmosByte, CmosIndex;
    PutLowByte(s.mem, RAX, s.inValue);
    RegisterWriteKeeps(s.mem, IoWidth(s.mem), RAX, portIn);
    var m1 := IoTransfer(s, portIn).mem;
    PutWEffect(m1, RIP, VmcbW(m1, EXITINFO2));
  }

  /** Over every exit, from any machine state: the event given back to the guest decodes to the
      intended one, with no reserved bit set and an error code for #GP only, and every other
      exit leaves the event field alone. */
  lemma StepDeliversIntendedEvent(s: State, portIn: Dword)
    requires WellFormed(s) && !s.halted
    ensures Delivers(s, Step(s, portIn).mem)
  {
    hide Prepare, InterruptExit, IretExit, Cr0WriteExit, ExceptionExit, ExitCode, IntNo, Halts, Decode, AnsweredByVisor,
         Cr0Read, Cr3Read, Cr3Written, GuestIo, VmcbW, VmcbD, Only;
    var s1 := s.(mem := Prepare(s.mem));
    var code := ExitCode(s.mem);
    PrepareEffect(s.mem);
    if code == VMEXIT_SWINT || code == VMEXIT_INTR {
      EmulatesOrInjects(s, portIn);
      DecodeSimple(KIND_SOFTWARE_INTERRUPT, s.mem[VMCB_FINAL + EXITINFO1]);
    } else {
      ControlRegistersKeep(s1);
      IretKeeps(s1.mem);
      IoKeeps(s1, portIn);
      ExceptionFields(s1.mem, code);
      DecodeSimple(KIND_INTR, 1);
      DecodeSimple(KIND_EXCEPTION, 3);
      DecodeSimple(KIND_EXCEPTION, 6);
      DecodeGp(VmcbD(Step(s, portIn).mem, EVENT_VALID));
    }
  }

  /** A reflected #GP backs the guest up over the INT exactly when it struck during delivery. */
  lemma GpBacksUpDuringDelivery(s: State, portIn: Dword)
    requires WellFormed(s) && !s.halted && ExitCode(s.mem) == VMEXIT_EXCEPTION_13
    ensures VmcbW(Step(s, portIn).mem, RIP) ==
            if DuringDelivery(s.mem) then SubW(VmcbW(s.mem, RIP), 2) else VmcbW(s.mem, RIP)
  {
    hide Prepare, ExceptionExit, ExitCode, IntNo, VmcbW, VmcbD, SubW;
    PrepareEffect(s.mem);
    ExceptionFields(Prepare(s.mem), VMEXIT_EXCEPTION_13);
  }

  // ----- which exceptions reach the guest -----

  /** An intercepted exception reaches the guest exactly when its vector is 1, 3, 6 or 13.  On all
      others, #PF among them, the guest is resumed with the exception dropped: the exit changes
      nothing but what every exit does. */
  lemma ReflectedExactlyWhen(s: State, portIn: Dword)
    requires WellFormed(s) && !s.halted && VMEXIT_EXCEPTION_00 <= ExitCode(s.mem) <= VMEXIT_EXCEPTION_31
    ensures var s', vector := Step(s, portIn), ExitCode(s.mem) - VMEXIT_EXCEPTION_00;
            && (vector !in {1, 3, 6, 13} ==> s' == s.(mem := Prepare(s.mem)))
            && (!EventPending(s.mem) ==> (EventPending(s'.mem) <==> vector in {1, 3, 6, 13}))
  {
    hide Prepare, ExitCode, IntNo, VmcbW, VmcbD, PutD, PutW;
    var code: int := ExitCode(s.mem);
    PrepareEffect(s.mem);
    ExceptionFields(Prepare(s.mem), ExitCode(s.mem));
  }

  /** The exceptions that push an error code (APM Volume 2, section 8.2). */
  predicate HasErrorCode(vector: nat) { vector in {8, 10, 11, 12, 13, 14, 17} }

  /** The event that repeats an intercepted exception: the same vector as an exception, with the
      error code the processor reported. */
  function Repeated(vector: nat, error: Dword): Injection {
    Injection(true, 0, HasErrorCode(vector), KIND_EXCEPTION, vector, if HasErrorCode(vector) then error else 0)
  }

  /** The guest gets the exception it raised, as an exception and with its own error code, exactly
      for vectors 3 and 6 and for a #GP outside the delivery of an event (or, inside one, when
      the error code is that of the IDT entry anyway). */
  lemma RepeatedExactlyWhen(s: State, portIn: Dword)
    requires WellFormed(s) && !s.halted && VMEXIT_EXCEPTION_00 <= ExitCode(s.mem) <= VMEXIT_EXCEPTION_31
    requires !EventPending(s.mem)
    ensures var m, m', vector := s.mem, Step(s, portIn).mem, ExitCode(s.mem) - VMEXIT_EXCEPTION_00;
            Decode(VmcbD(m', EVENTINJ), VmcbD(m', EVENT_VALID)) == Repeated(vector, VmcbD(m, EXITINFO1)) <==>
            || vector == 3 || vector == 6
            || (vector == 13 && (!DuringDelivery(m) || VmcbD(m, EXITINFO1) == 8 * (VmcbD(m, EXITINTINFO) % 0x100) + 2))
  {
    hide Prepare, ExitCode, IntNo, VmcbW, VmcbD, Decode, Step, EventPending;
    var m, m' := s.mem, Step(s, portIn).mem;
    ReflectedExactlyWhen(s, portIn);
    StepDeliversIntendedEvent(s, portIn);
    ValidMeansPending(m');
  }

  lemma ValidMeansPending(m: Mem)
    ensures Decode(VmcbD(m, EVENTINJ), VmcbD(m, EVENT_VALID)).valid <==> EventPending(m)
  {
    hide VmcbD;
  }
}
