/** INT and IRET emulation undo each other at any nesting depth. */
module NestedInterrupts {
  import opened Memory
  import opened Paging
  import opened Vmcb
  import opened RealModeStack
  import opened GuestMemory

  /** Real mode as the emulation expects it: identity tables and a 16-bit stack pointer. */
  ghost predicate RealMode(m: Mem) {
    TablesOk(m) && VmcbD(m, RSP) < 0x1_0000
  }

  /** A CS base that survives being pushed: below 64K, so that its low word is all of it, and
      a multiple of 16. */
  predicate Pushable(base: Dword) {
    base < 0x1_0000 && base % 0x10 == 0
  }

  /** The segment half of interrupt vector v. */
  function VectorSegment(m: Mem, v: Byte): Word {
    ReadW(m, v * 4 + 2)
  }

  /** The byte at linear address a belongs to one of the next n frames. */
  ghost predicate InFrames(ss: Word, sp: Word, n: nat, a: int)
    decreases n
  {
    n > 0 && (ss + SubW(sp, 6) <= a < ss + SubW(sp, 6) + 6 || InFrames(ss, SubW(sp, 6), n - 1, a))
  }

  ghost predicate FramesClearOfVectors(ss: Word, sp: Word, n: nat) {
    forall a: int :: InFrames(ss, sp, n, a) ==> 0x400 <= a
  }

  /** The VMCB bytes an INT or IRET may change: CS base, low RFLAGS, low RIP, low RSP. */
  ghost predicate FrameField(a: int) {
    || VMCB_FINAL + CS_BASE <= a < VMCB_FINAL + CS_BASE + 4
    || VMCB_FINAL + RFLAGS <= a < VMCB_FINAL + RFLAGS + 2
    || VMCB_FINAL + RIP <= a < VMCB_FINAL + RIP + 2
    || VMCB_FINAL + RSP <= a < VMCB_FINAL + RSP + 2
  }

  /** Everything but the n frames below sp and the frame fields is as before. */
  ghost predicate Untouched(m: Mem, m': Mem, ss: Word, sp: Word, n: nat) {
    forall a: Dword {:trigger m[a]} {:trigger m'[a]} :: !FrameField(a) && !InFrames(ss, sp, n, a) ==> m'[a] == m[a]
  }

  lemma InFramesBelow(ss: Word, sp: Word, n: nat, a: int)
    requires InFrames(ss, sp, n, a)
    ensures ss <= a < ss + 0x1_0005
    decreases n
  {
    if !(ss + SubW(sp, 6) <= a < ss + SubW(sp, 6) + 6) {
      InFramesBelow(ss, SubW(sp, 6), n - 1, a);
    }
  }

  // ----- the two routines on flat memory -----

  function FlatInterrupt(m: Mem, v: Byte): Mem {
    var sp: Word := SubW(VmcbW(m, RSP), 6);
    var top: Dword := VmcbW(m, SS_BASE) + sp;
    var m1 := PutW(m, RSP, sp);
    var m2 := WriteW(m1, top + 4, VmcbW(m, RFLAGS));
    var m3 := WriteW(m2, top + 2, VmcbW(m, CS_BASE) / 0x10);
    var m4 := WriteW(m3, top, AddW(VmcbW(m, RIP), 2));
    var m5 := PutW(m4, RFLAGS, ClearIfTf(VmcbW(m, RFLAGS)));
    var m6 := PutD(m5, CS_BASE, ReadW(m5, v * 4 + 2) * 0x10);
    PutW(m6, RIP, ReadW(m6, v * 4))
  }

  function FlatReturn(m: Mem): Mem {
    var top: Dword := VmcbW(m, SS_BASE) + VmcbW(m, RSP);
    var m1 := PutW(m, RFLAGS, SetIfClearTf(ReadW(m, top + 4)));
    var m2 := PutD(m1, CS_BASE, ReadW(m1, top + 2) * 0x10);
    var m3 := PutW(m2, RIP, ReadW(m2, top));
    PutW(m3, RSP, AddW(VmcbW(m3, RSP), 6))
  }

  lemma PutWKeepsTables(m: Mem, f: Field, v: Word)
    requires TablesOk(m) && 0x554 <= f
    ensures TablesOk(PutW(m, f, v))
  {
    hide TablesOk;
    TablesKept(m, PutW(m, f, v));
  }

  lemma PutCsKeepsTables(m: Mem, v: Dword)
    requires TablesOk(m)
    ensures TablesOk(PutD(m, CS_BASE, v))
  {
    hide TablesOk;
    TablesKept(m, PutD(m, CS_BASE, v));
  }

  lemma StoreWKeepsTables(m: Mem, a: Dword, v: Word)
    requires TablesOk(m) && a < 0x2_0010
    ensures TablesOk(WriteW(m, a, v))
  {
    hide TablesOk;
    TablesKept(m, WriteW(m, a, v));
  }

  lemma LowWord(m: Mem, f: Field)
    requires VmcbD(m, f) < 0x1_0000
    ensures VmcbW(m, f) == VmcbD(m, f)
  {
  }

  lemma SetSp(m: Mem, sp: Word)
    requires VmcbD(m, RSP) < 0x1_0000
    ensures VmcbD(PutW(m, RSP, sp), RSP) == sp && VmcbW(PutW(m, RSP, sp), SS_BASE) == VmcbW(m, SS_BASE)
  {
  }

  lemma InterruptIsFlat(m: Mem, v: Byte)
    requires RealMode(m)
    ensures SoftwareInterrupt(m, v) == FlatInterrupt(m, v)
  {
    hide VmcbD, VmcbW, TablesOk, TranslateGuestPhysicalAddress, PutW, PutD, WriteW, WriteD, ReadW, ReadD;
    LowWord(m, RSP);
    var sp: Word := SubW(VmcbW(m, RSP), 6);
    var top: Dword := VmcbW(m, SS_BASE) + sp;
    var m1 := PutW(m, RSP, sp);
    SetSp(m, sp);
    PutWKeepsTables(m, RSP, sp);
    TranslateIsIdentity(m1, top + 4);
    var m2 := WriteW(m1, top + 4, VmcbW(m, RFLAGS));
    StoreWKeepsTables(m1, top + 4, VmcbW(m, RFLAGS));
    TranslateIsIdentity(m2, top + 2);
    var m3 := WriteW(m2, top + 2, VmcbW(m, CS_BASE) / 0x10);
    StoreWKeepsTables(m2, top + 2, VmcbW(m, CS_BASE) / 0x10);
    TranslateIsIdentity(m3, top);
    var m4 := WriteW(m3, top, AddW(VmcbW(m, RIP), 2));
    StoreWKeepsTables(m3, top, AddW(VmcbW(m, RIP), 2));
    var m5 := PutW(m4, RFLAGS, ClearIfTf(VmcbW(m, RFLAGS)));
    PutWKeepsTables(m4, RFLAGS, ClearIfTf(VmcbW(m, RFLAGS)));
    TranslateIsIdentity(m5, v * 4 + 2);
    var m6 := PutD(m5, CS_BASE, ReadW(m5, v * 4 + 2) * 0x10);
    PutCsKeepsTables(m5, ReadW(m5, v * 4 + 2) * 0x10);
    TranslateIsIdentity(m6, v * 4);
  }

  lemma ReturnIsFlat(m: Mem)
    requires TablesOk(m)
    ensures PopFrame(m) == FlatReturn(m)
  {
    hide TablesOk, TranslateGuestPhysicalAddress, PutW, PutD, WriteW, WriteD, ReadW, ReadD;
    var top: Dword := VmcbW(m, SS_BASE) + VmcbW(m, RSP);
    TranslateIsIdentity(m, top + 4);
    var m1 := PutW(m, RFLAGS, SetIfClearTf(ReadW(m, top + 4)));
    PutWKeepsTables(m, RFLAGS, SetIfClearTf(ReadW(m, top + 4)));
    TranslateIsIdentity(m1, top + 2);
    var m2 := PutD(m1, CS_BASE, ReadW(m1, top + 2) * 0x10);
    PutCsKeepsTables(m1, ReadW(m1, top + 2) * 0x10);
    TranslateIsIdentity(m2, top);
  }

  // ----- their effect -----

  /** What an interrupt through vector v leaves: the old IP + 2, CS and flags in one frame, the
      stack pointer below it, CS:IP from the vector, IF and TF clear, and nothing else. */
  ghost predicate Pushed(m: Mem, v: Byte, m': Mem) {
    var ss: int, sp: int := VmcbW(m, SS_BASE), SubW(VmcbW(m, RSP), 6);
    && PushedFields(m, v, m', ss, sp)
    && Untouched(m, m', ss, VmcbW(m, RSP), 1)
  }

  ghost predicate PushedFields(m: Mem, v: Byte, m': Mem, ss: Word, sp: Word) {
    && VmcbW(m', SS_BASE) == ss && VmcbD(m', RSP) == sp
    && VmcbD(m', CS_BASE) == 0x10 * VectorSegment(m, v) && VmcbW(m', RIP) == ReadW(m, 4 * v)
    && VmcbW(m', RFLAGS) == ClearIfTf(VmcbW(m, RFLAGS))
    && FrameWords(m, m', ss, sp)
  }

  ghost predicate FrameWords(m: Mem, m': Mem, ss: Word, sp: Word) {
    && ReadW(m', ss + sp) == AddW(VmcbW(m, RIP), 2)
    && ReadW(m', ss + sp + 2) == VmcbW(m, CS_BASE) / 0x10
    && ReadW(m', ss + sp + 4) == VmcbW(m, RFLAGS)
  }

  /** What a return leaves: CS:IP and flags from the frame, with IF set and TF clear, the
      stack pointer above it, and nothing else. */
  ghost predicate Popped(m: Mem, m': Mem) {
    var ss: int, sp: int := VmcbW(m, SS_BASE), VmcbW(m, RSP);
    && VmcbW(m', SS_BASE) == ss && VmcbW(m', RSP) == AddW(sp, 6)
    && (VmcbD(m, RSP) < 0x1_0000 ==> VmcbD(m', RSP) == AddW(sp, 6))
    && VmcbD(m', CS_BASE) == 0x10 * ReadW(m, ss + sp + 2)
    && VmcbW(m', RIP) == ReadW(m, ss + sp)
    && VmcbW(m', RFLAGS) == SetIfClearTf(ReadW(m, ss + sp + 4))
    && Untouched(m, m', ss, sp, 0)
  }

  lemma InterruptEffect(m: Mem, v: Byte)
    requires RealMode(m) && VmcbW(m, SS_BASE) + SubW(VmcbW(m, RSP), 6) >= 0x400
    ensures RealMode(SoftwareInterrupt(m, v)) && Pushed(m, v, SoftwareInterrupt(m, v))
  {
    hide FlatInterrupt, SoftwareInterrupt, TablesOk, PushedFields, Untouched, VmcbW, SubW;
    InterruptIsFlat(m, v);
    FlatInterruptFrame(m, v);
    FlatInterruptFields(m, v);
    UntouchedKeepsTables(m, FlatInterrupt(m, v), VmcbW(m, SS_BASE), VmcbW(m, RSP), 1);
    assert VmcbD(FlatInterrupt(m, v), RSP) < 0x1_0000 by {
      PushedSp(m, v, FlatInterrupt(m, v), VmcbW(m, SS_BASE), SubW(VmcbW(m, RSP), 6));
    }
  }

  /** CS:IP are what vector v holds. */
  ghost predicate AtVector(m: Mem, v: Byte) {
    VmcbD(m, CS_BASE) == 0x10 * VectorSegment(m, v) && VmcbW(m, RIP) == ReadW(m, 4 * v)
  }

  /** Wherever the frame lands, on the vector table too: CS:IP come from the vector as memory holds it
      after the frame was pushed. */
  lemma VectorReadAfterPush(m: Mem, v: Byte)
    requires RealMode(m)
    ensures AtVector(SoftwareInterrupt(m, v), v)
  {
    hide ReadW, ReadD, WriteW, WriteD, ClearIfTf, AddW, SubW, RealMode, SoftwareInterrupt;
    InterruptIsFlat(m, v);
    var sp: Word := SubW(VmcbW(m, RSP), 6);
    var top: Dword := VmcbW(m, SS_BASE) + sp;
    var m2 := WriteW(PutW(m, RSP, sp), top + 4, VmcbW(m, RFLAGS));
    var m3 := WriteW(m2, top + 2, VmcbW(m, CS_BASE) / 0x10);
    var m4 := WriteW(m3, top, AddW(VmcbW(m, RIP), 2));
    var m5 := PutW(m4, RFLAGS, ClearIfTf(VmcbW(m, RFLAGS)));
    var m6 := PutD(m5, CS_BASE, ReadW(m5, v * 4 + 2) * 0x10);
    WriteDEffect(m5, VMCB_FINAL + CS_BASE, ReadW(m5, v * 4 + 2) * 0x10);
    WriteWEffect(m6, VMCB_FINAL + RIP, ReadW(m6, v * 4));
  }

  lemma PushedSp(m: Mem, v: Byte, m': Mem, ss: Word, sp: Word)
    requires PushedFields(m, v, m', ss, sp)
    ensures VmcbD(m', RSP) == sp
  {
    hide VmcbD, VmcbW, ReadW, AddW, ClearIfTf;
  }

  lemma UntouchedKeepsTables(m: Mem, m': Mem, ss: Word, sp: Word, n: nat)
    requires TablesOk(m) && Untouched(m, m', ss, sp, n)
    ensures TablesOk(m')
  {
    hide TablesOk, InFrames;
    forall a: Dword | TableByteAddress(a) ensures m'[a] == m[a] {
      if InFrames(ss, sp, n, a) {
        InFramesBelow(ss, sp, n, a);
      }
    }
    TablesKept(m, m');
  }

  lemma FlatInterruptFrame(m: Mem, v: Byte)
    ensures Untouched(m, FlatInterrupt(m, v), VmcbW(m, SS_BASE), VmcbW(m, RSP), 1)
  {
    hide ReadW, ReadD, ClearIfTf, AddW;
    var ss, sp := VmcbW(m, SS_BASE), SubW(VmcbW(m, RSP), 6);
    assert forall a: int :: ss + sp <= a < ss + sp + 6 ==> InFrames(ss, VmcbW(m, RSP), 1, a);
  }

  lemma FlatInterruptFields(m: Mem, v: Byte)
    requires VmcbD(m, RSP) < 0x1_0000
    ensures var ss, sp := VmcbW(m, SS_BASE), SubW(VmcbW(m, RSP), 6);
            && FrameWords(m, FlatInterrupt(m, v), ss, sp)
            && (ss + sp >= 0x400 ==> PushedFields(m, v, FlatInterrupt(m, v), ss, sp))
  {
    hide ReadW, ReadD, WriteW, WriteD, ClearIfTf, AddW, SubW;
    var sp: Word := SubW(VmcbW(m, RSP), 6);
    var top: Dword := VmcbW(m, SS_BASE) + sp;
    var flags, cs, ip := VmcbW(m, RFLAGS), VmcbW(m, CS_BASE), VmcbW(m, RIP);
    var m1 := PutW(m, RSP, sp);
    SetSp(m, sp);
    WriteWEffect(m, VMCB_FINAL + RSP, sp);
    var m2 := WriteW(m1, top + 4, flags);
    WriteWEffect(m1, top + 4, flags);
    var m3 := WriteW(m2, top + 2, cs / 0x10);
    WriteWEffect(m2, top + 2, cs / 0x10);
    var m4 := WriteW(m3, top, AddW(ip, 2));
    WriteWEffect(m3, top, AddW(ip, 2));
    var m5 := PutW(m4, RFLAGS, ClearIfTf(flags));
    WriteWEffect(m4, VMCB_FINAL + RFLAGS, ClearIfTf(flags));
    var m6 := PutD(m5, CS_BASE, ReadW(m5, v * 4 + 2) * 0x10);
    WriteDEffect(m5, VMCB_FINAL + CS_BASE, ReadW(m5, v * 4 + 2) * 0x10);
    WriteWEffect(m6, VMCB_FINAL + RIP, ReadW(m6, v * 4));
  }

  lemma ReturnEffect(m: Mem)
    requires TablesOk(m)
    ensures Popped(m, PopFrame(m))
  {
    hide ReadW, ReadD, WriteW, WriteD, SetIfClearTf, AddW, TablesOk, TranslateGuestPhysicalAddress, Untouched, PopFrame;
    ReturnIsFlat(m);
    FlatReturnFrame(m);
    var sp: Word := VmcbW(m, RSP);
    var top: Dword := VmcbW(m, SS_BASE) + VmcbW(m, RSP);
    var flags: Word, cs: int, ip: Word := SetIfClearTf(ReadW(m, top + 4)), ReadW(m, top + 2), ReadW(m, top);
    var m1 := PutW(m, RFLAGS, flags);
    WriteWEffect(m, VMCB_FINAL + RFLAGS, flags);
    var m2 := PutD(m1, CS_BASE, cs * 0x10);
    WriteDEffect(m1, VMCB_FINAL + CS_BASE, cs * 0x10);
    var m3 := PutW(m2, RIP, ip);
    WriteWEffect(m2, VMCB_FINAL + RIP, ip);
    WriteWEffect(m3, VMCB_FINAL + RSP, AddW(sp, 6));
    if VmcbD(m, RSP) < 0x1_0000 {
      SetSp(m3, AddW(sp, 6));
    }
  }

  lemma PoppedCs(m: Mem, m': Mem)
    requires Popped(m, m')
    ensures VmcbD(m', CS_BASE) == 0x10 * ReadW(m, VmcbW(m, SS_BASE) + VmcbW(m, RSP) + 2)
  {
    hide VmcbD, VmcbW, ReadW, Untouched;
  }

  lemma FlatReturnFrame(m: Mem)
    ensures Untouched(m, FlatReturn(m), VmcbW(m, SS_BASE), VmcbW(m, RSP), 0)
  {
    hide ReadW, ReadD, SetIfClearTf, AddW;
  }

  // ----- any depth -----

  /** One INT through each vector in turn. */
  function Interrupts(m: Mem, vs: seq<Byte>): Mem
    decreases vs
  {
    hide SoftwareInterrupt;
    if vs == [] then m else Interrupts(SoftwareInterrupt(m, vs[0]), vs[1..])
  }

  /** n returns in a row. */
  function Returns(m: Mem, n: nat): Mem {
    hide PopFrame;
    if n == 0 then m else PopFrame(Returns(m, n - 1))
  }

  /** What the emulation needs of the guest to nest through vs: frames that do not run into
      the vector table or, after 10922 of them, into each other. */
  ghost predicate Nestable(m: Mem, vs: seq<Byte>) {
    RealMode(m) && |vs| <= 10922 && FramesClearOfVectors(VmcbW(m, SS_BASE), VmcbW(m, RSP), |vs|)
  }

  /** m' is m after n balanced interrupts: SS and SP as before; if there was one, CS cut to the
      low word of its base and that to a multiple of 16, IP past the two-byte INT instruction,
      and the flags with IF set and TF clear; and only the n frames below SP overwritten. */
  ghost predicate Restored(m: Mem, m': Mem, n: nat) {
    && VmcbW(m', SS_BASE) == VmcbW(m, SS_BASE) && VmcbD(m', RSP) == VmcbD(m, RSP)
    && VmcbD(m', CS_BASE) == (if n == 0 then VmcbD(m, CS_BASE) else VmcbW(m, CS_BASE) / 0x10 * 0x10)
    && VmcbW(m', RIP) == (if n == 0 then VmcbW(m, RIP) else AddW(VmcbW(m, RIP), 2))
    && VmcbW(m', RFLAGS) == (if n == 0 then VmcbW(m, RFLAGS) else SetIfClearTf(VmcbW(m, RFLAGS)))
    && Untouched(m, m', VmcbW(m, SS_BASE), VmcbW(m, RSP), n)
  }

  /** Later frames do not overlap the one at spA as long as the stack has not come round. */
  lemma LaterFramesDisjoint(ss: Word, spA: Word, spK: Word, k: nat, n: nat, a: int)
    requires spA - spK == 6 * k || spK - spA == 0x1_0000 - 6 * k
    requires k + n <= 10921 && InFrames(ss, spK, n, a)
    ensures a < ss + spA || ss + spA + 6 <= a
    decreases n
  {
    if !(ss + SubW(spK, 6) <= a < ss + SubW(spK, 6) + 6) {
      LaterFramesDisjoint(ss, spA, SubW(spK, 6), k + 1, n - 1, a);
    }
  }

  lemma FirstFrameClear(m: Mem, n: nat)
    requires n > 0 && FramesClearOfVectors(VmcbW(m, SS_BASE), VmcbW(m, RSP), n)
    ensures VmcbW(m, SS_BASE) + SubW(VmcbW(m, RSP), 6) >= 0x400
  {
    hide VmcbW, SubW;
    assert InFrames(VmcbW(m, SS_BASE), VmcbW(m, RSP), n, VmcbW(m, SS_BASE) + SubW(VmcbW(m, RSP), 6));
  }

  lemma VectorsKept(m: Mem, m': Mem, ss: Word, sp: Word, n: nat, v: Byte)
    requires Untouched(m, m', ss, sp, n) && FramesClearOfVectors(ss, sp, n)
    ensures VectorSegment(m', v) == VectorSegment(m, v)
  {
    hide InFrames;
    var a: Dword := v * 4 + 2;
    assert !InFrames(ss, sp, n, a) && !InFrames(ss, sp, n, a + 1);
    assert m'[a] == m[a] && m'[a + 1] == m[a + 1];
  }

  lemma NestableStep(m: Mem, vs: seq<Byte>)
    requires vs != [] && Nestable(m, vs)
    ensures var m' := SoftwareInterrupt(m, vs[0]);
            RealMode(m') && Pushed(m, vs[0], m') && Nestable(m', vs[1..])
  {
    hide SoftwareInterrupt;
    FirstFrameClear(m, |vs|);
    InterruptEffect(m, vs[0]);
    NestablePushed(m, vs, SoftwareInterrupt(m, vs[0]));
  }

  lemma NestablePushed(m: Mem, vs: seq<Byte>, m': Mem)
    requires vs != [] && Nestable(m, vs)
    requires RealMode(m') && Pushed(m, vs[0], m')
    ensures Nestable(m', vs[1..])
  {
    hide TablesOk, ReadW, ReadD, VmcbW, VmcbD, VectorSegment, Untouched, AddW, ClearIfTf, SubW;
    LowWord(m', RSP);
    var ss, sp, sp', n := VmcbW(m, SS_BASE), VmcbW(m, RSP), VmcbW(m', RSP), |vs| - 1;
    forall a: int | InFrames(ss, sp', n, a) ensures 0x400 <= a {
      assert InFrames(ss, sp, |vs|, a);
    }
    assert FramesClearOfVectors(ss, sp, 1) by {
      forall a: int | InFrames(ss, sp, 1, a) ensures 0x400 <= a {
        assert InFrames(ss, sp, |vs|, a);
      }
    }
  }

  /** The frame at the top survives deeper interrupts. */
  lemma FrameSurvives(m1: Mem, m2: Mem, ss: Word, sp: Word, n: nat, k: Word)
    requires Untouched(m1, m2, ss, sp, n) && n <= 10921 && k <= 4
    ensures ReadW(m2, ss + sp + k) == ReadW(m1, ss + sp + k)
  {
    hide InFrames;
    var a: Dword := ss + sp + k;
    forall j: Dword | a <= j <= a + 1 ensures m2[j] == m1[j] {
      if InFrames(ss, sp, n, j) {
        LaterFramesDisjoint(ss, sp, sp, 0, n, j);
      }
    }
  }

  lemma UntouchedTransitive(m: Mem, m1: Mem, m2: Mem, m3: Mem, ss: Word, sp: Word, n: nat)
    requires n > 0 && Untouched(m, m1, ss, sp, 1)
    requires Untouched(m1, m2, ss, SubW(sp, 6), n - 1) && Untouched(m2, m3, ss, SubW(sp, 6), 0)
    ensures Untouched(m, m3, ss, sp, n)
  {
    hide SubW, FrameField;
    forall a: Dword | !FrameField(a) && !InFrames(ss, sp, n, a) ensures m3[a] == m[a] {
      assert !InFrames(ss, sp, 1, a) && !InFrames(ss, SubW(sp, 6), n - 1, a) && !InFrames(ss, SubW(sp, 6), 0, a);
    }
  }

  lemma BalancedStep(m: Mem, v: Byte, m1: Mem, m2: Mem, m3: Mem, n: nat)
    requires RealMode(m) && 0 < n <= 10922
    requires Pushed(m, v, m1) && Restored(m1, m2, n - 1) && Popped(m2, m3)
    ensures Restored(m, m3, n)
  {
    hide ReadW, ReadD, VmcbW, VmcbD, TablesOk, Untouched, SetIfClearTf, ClearIfTf, VectorSegment;
    var ss, sp := VmcbW(m, SS_BASE), SubW(VmcbW(m, RSP), 6);
    LowWord(m, RSP);
    LowWord(m2, RSP);
    LowWord(m1, RSP);
    FrameSurvives(m1, m2, ss, sp, n - 1, 0);
    FrameSurvives(m1, m2, ss, sp, n - 1, 2);
    FrameSurvives(m1, m2, ss, sp, n - 1, 4);
    UntouchedTransitive(m, m1, m2, m3, ss, VmcbW(m, RSP), n);
  }

  /** n interrupts followed by n returns restore the level they started from. */
  lemma {:induction false} ReturnsUndoInterrupts(m: Mem, vs: seq<Byte>)
    requires Nestable(m, vs)
    ensures Restored(m, Returns(Interrupts(m, vs), |vs|), |vs|)
    decreases vs
  {
    hide SoftwareInterrupt, PopFrame, Restored, Pushed, Popped, RealMode, FramesClearOfVectors;
    if vs == [] {
      RestoredItself(m);
    } else {
      var m1 := SoftwareInterrupt(m, vs[0]);
      NestableStep(m, vs);
      ReturnsUndoInterrupts(m1, vs[1..]);
      var m2 := Returns(Interrupts(m1, vs[1..]), |vs| - 1);
      RestoredKeepsTables(m1, m2, |vs| - 1);
      ReturnEffect(m2);
      BalancedStep(m, vs[0], m1, m2, PopFrame(m2), |vs|);
    }
  }

  lemma RestoredItself(m: Mem)
    ensures Restored(m, m, 0)
  {
    hide VmcbW, VmcbD, InFrames;
  }

  lemma RestoredKeepsTables(m: Mem, m': Mem, n: nat)
    requires RealMode(m) && Restored(m, m', n)
    ensures TablesOk(m')
  {
    hide TablesOk, VmcbW, VmcbD, Untouched;
    UntouchedKeepsTables(m, m', VmcbW(m, SS_BASE), VmcbW(m, RSP), n);
  }

  /** Every intermediate return restores its own level: after k of the interrupts the rest
      nest, and their returns lead back to that point. */
  lemma {:induction false} EveryLevelIsRestored(m: Mem, vs: seq<Byte>, k: nat)
    requires Nestable(m, vs) && k <= |vs|
    ensures var level := Interrupts(m, vs[..k]);
            Restored(level, Returns(Interrupts(m, vs), |vs| - k), |vs| - k)
    decreases k
  {
    hide SoftwareInterrupt, Restored, Pushed, Nestable, Returns;
    if k == 0 {
      assert vs[..0] == [];
      ReturnsUndoInterrupts(m, vs);
    } else {
      NestableStep(m, vs);
      EveryLevelIsRestored(SoftwareInterrupt(m, vs[0]), vs[1..], k - 1);
      assert vs[..k][1..] == vs[1..][..k - 1] && vs[..k][0] == vs[0];
    }
  }

  /** The CS base at depth k is that of the k-th vector: no frame above it touched the table. */
  lemma {:induction false} HandlerCs(m: Mem, vs: seq<Byte>, k: nat)
    requires Nestable(m, vs) && 0 < k <= |vs|
    ensures VmcbD(Interrupts(m, vs[..k]), CS_BASE) == 0x10 * VectorSegment(m, vs[k - 1])
    decreases k
  {
    hide SoftwareInterrupt, Pushed, Nestable, VmcbD, VectorSegment;
    var m1 := SoftwareInterrupt(m, vs[0]);
    NestableStep(m, vs);
    assert vs[..k][1..] == vs[1..][..k - 1] && vs[..k][0] == vs[0];
    if k == 1 {
      assert vs[1..][..0] == [];
      PushedCs(m, vs[0], m1);
    } else {
      HandlerCs(m1, vs[1..], k - 1);
      FirstFrameKeepsVectors(m, vs, m1, vs[k - 1]);
    }
  }

  lemma PushedCs(m: Mem, v: Byte, m': Mem)
    requires Pushed(m, v, m')
    ensures VmcbD(m', CS_BASE) == 0x10 * VectorSegment(m, v)
  {
    hide VmcbD, VmcbW, ReadW, Untouched, AddW, ClearIfTf, VectorSegment;
  }

  lemma FirstFrameKeepsVectors(m: Mem, vs: seq<Byte>, m': Mem, v: Byte)
    requires vs != [] && Nestable(m, vs) && Pushed(m, vs[0], m')
    ensures VectorSegment(m', v) == VectorSegment(m, v)
  {
    hide PushedFields, VmcbW, Untouched, VectorSegment, RealMode, SubW;
    var ss, sp := VmcbW(m, SS_BASE), VmcbW(m, RSP);
    forall a: int | InFrames(ss, sp, 1, a) ensures 0x400 <= a {
      assert InFrames(ss, sp, |vs|, a);
    }
    VectorsKept(m, m', ss, sp, 1, v);
  }

  /** At every level of any nesting, the CS base comes back exactly when it could be pushed: the
      interrupted program's when it is a multiple of 16 below 64K, a handler's when its vector
      has a segment below 1000h. */
  lemma CsComesBackExactlyWhen(m: Mem, vs: seq<Byte>, k: nat)
    requires Nestable(m, vs) && k < |vs|
    ensures var level := Interrupts(m, vs[..k]);
            VmcbD(Returns(Interrupts(m, vs), |vs| - k), CS_BASE) == VmcbD(level, CS_BASE) <==>
            if k == 0 then Pushable(VmcbD(m, CS_BASE)) else VectorSegment(m, vs[k - 1]) < 0x1000
  {
    hide SoftwareInterrupt, Nestable, VmcbD, VmcbW, VectorSegment, Returns, Interrupts, Restored;
    var level := Interrupts(m, vs[..k]);
    EveryLevelIsRestored(m, vs, k);
    RestoredCs(level, Returns(Interrupts(m, vs), |vs| - k), |vs| - k);
    if k == 0 {
      assert vs[..0] == [];
      NoInterrupts(m);
    } else {
      HandlerCs(m, vs, k);
    }
  }

  lemma NoInterrupts(m: Mem)
    ensures Interrupts(m, []) == m
  {
  }

  lemma RestoredCs(m: Mem, m': Mem, n: nat)
    requires Restored(m, m', n) && n > 0
    ensures VmcbD(m', CS_BASE) == VmcbD(m, CS_BASE) <==> Pushable(VmcbD(m, CS_BASE))
    ensures VmcbD(m, CS_BASE) % 0x10 == 0 ==> (Pushable(VmcbD(m, CS_BASE)) <==> VmcbD(m, CS_BASE) / 0x10 < 0x1000)
  {
    hide VmcbW, VmcbD, Untouched, SetIfClearTf, AddW;
    LowWordOf(m, CS_BASE);
  }

  // ----- where the round trip is exact -----

  /** One interrupt and its return bring back the CS base exactly when the base could be
      pushed, and the flags exactly when IF was set and TF clear. */
  lemma RoundTripExactlyWhen(m: Mem, v: Byte)
    requires RealMode(m) && VmcbW(m, SS_BASE) + SubW(VmcbW(m, RSP), 6) >= 0x400
    ensures var m' := PopFrame(SoftwareInterrupt(m, v));
            && (VmcbD(m', CS_BASE) == VmcbD(m, CS_BASE) <==> Pushable(VmcbD(m, CS_BASE)))
            && (VmcbW(m', RFLAGS) == VmcbW(m, RFLAGS) <==> VmcbW(m, RFLAGS) / 0x100 % 4 == 2)
  {
    hide SoftwareInterrupt, PopFrame, Pushed, Popped, Pushable;
    InterruptEffect(m, v);
    ReturnEffect(SoftwareInterrupt(m, v));
    RoundTrip(m, v, SoftwareInterrupt(m, v), PopFrame(SoftwareInterrupt(m, v)));
  }

  lemma RoundTrip(m: Mem, v: Byte, m1: Mem, m2: Mem)
    requires Pushed(m, v, m1) && Popped(m1, m2)
    ensures VmcbD(m2, CS_BASE) == VmcbD(m, CS_BASE) <==> Pushable(VmcbD(m, CS_BASE))
    ensures VmcbW(m2, RFLAGS) == VmcbW(m, RFLAGS) <==> VmcbW(m, RFLAGS) / 0x100 % 4 == 2
  {
    hide ReadW, ReadD, VmcbW, VmcbD, Untouched, VectorSegment;
    LowWordOf(m, CS_BASE);
    LowWord(m1, RSP);
  }
}
