/** The emulated INT and IRET against the processor's own (APM Volume 2, section 8.6): which
    stack words a processor in real mode would write and read, and when the emulation uses the
    same ones. */
module ProcessorStack {
  import opened Memory
  import opened Vmcb
  import opened RealModeStack
  import opened GuestMemory
  import opened NestedInterrupts

  /** The linear address of the stack word at a 16-bit offset: the whole base counts. */
  function Slot(m: Mem, offset: Word): Dword {
    Add(VmcbD(m, SS_BASE), offset)
  }

  /** m' holds, where a processor would have pushed them from m, the flags at SP-2, the CS
      selector at SP-4 and the return IP at SP-6. */
  ghost predicate HoldsFrame(m: Mem, m': Mem) {
    var sp := VmcbW(m, RSP);
    && ReadW(m', Slot(m, SubW(sp, 2))) == VmcbW(m, RFLAGS)
    && ReadW(m', Slot(m, SubW(sp, 4))) == VmcbD(m, CS_BASE) / 0x10
    && ReadW(m', Slot(m, SubW(sp, 6))) == AddW(VmcbW(m, RIP), 2)
  }

  /** m' has IP, CS and flags (with IF set and TF clear) from where a processor would have popped
      them in m: SP, SP+2 and SP+4. */
  ghost predicate LoadsFrame(m: Mem, m': Mem) {
    var sp := VmcbW(m, RSP);
    && VmcbW(m', RIP) == ReadW(m, Slot(m, sp))
    && VmcbD(m', CS_BASE) == 0x10 * ReadW(m, Slot(m, AddW(sp, 2)))
    && VmcbW(m', RFLAGS) == SetIfClearTf(ReadW(m, Slot(m, AddW(sp, 4))))
  }

  /** The same machine with anything on the stack. */
  ghost predicate SameButStack(m: Mem, m2: Mem) {
    SameOutside(m, m2, VmcbD(m, SS_BASE), VmcbD(m, SS_BASE) + 0x1_0001)
  }

  ghost predicate PushesAsProcessor(m: Mem, v: Byte) {
    forall m2: Mem :: SameButStack(m, m2) ==> HoldsFrame(m2, SoftwareInterrupt(m2, v))
  }

  ghost predicate PopsAsProcessor(m: Mem) {
    forall m2: Mem :: SameButStack(m, m2) ==> LoadsFrame(m2, PopFrame(m2))
  }

  /** A stack segment as real mode can load it. */
  ghost predicate RealStack(m: Mem) {
    TablesOk(m) && VmcbD(m, SS_BASE) < 0x10_0000
  }

  lemma StackAside(m: Mem, m2: Mem)
    requires RealStack(m) && SameButStack(m, m2)
    ensures RealStack(m2)
    ensures forall f: Field {:trigger VmcbW(m2, f)} :: f < 0xFFF ==> VmcbW(m2, f) == VmcbW(m, f)
    ensures forall f: Field {:trigger VmcbD(m2, f)} :: f < 0xFFD ==> VmcbD(m2, f) == VmcbD(m, f)
  {
    hide TablesOk;
    assert forall a: Dword {:trigger m[a]} {:trigger m2[a]} :: 0x11_0001 <= a ==> m2[a] == m[a];
    TablesKept(m, m2) by { hide SameOutside; }
    FieldsKept(m, m2);
  }

  lemma StackTables(m: Mem)
    requires RealStack(m)
    ensures TablesOk(m) && VmcbD(m, SS_BASE) < 0x10_0000
  {
    hide TablesOk, VmcbD;
  }

  lemma FieldsKept(m: Mem, m2: Mem)
    requires forall a: Dword {:trigger m[a]} {:trigger m2[a]} :: 0x11_0001 <= a ==> m2[a] == m[a]
    ensures forall f: Field {:trigger VmcbW(m2, f)} :: f < 0xFFF ==> VmcbW(m2, f) == VmcbW(m, f)
    ensures forall f: Field {:trigger VmcbD(m2, f)} :: f < 0xFFD ==> VmcbD(m2, f) == VmcbD(m, f)
  {
  }

  // ----- INT -----

  /** The emulation's frame goes upwards from the new top without wrapping, from the low word of
      the base. */
  lemma EmulatedFrame(m: Mem, v: Byte)
    requires RealMode(m)
    ensures var m' := SoftwareInterrupt(m, v);
            && FrameWords(m, m', VmcbW(m, SS_BASE), SubW(VmcbW(m, RSP), 6))
            && Untouched(m, m', VmcbW(m, SS_BASE), VmcbW(m, RSP), 1)
  {
    hide SoftwareInterrupt, FlatInterrupt, VmcbW, TablesOk, Untouched, FrameWords, PushedFields, SubW;
    InterruptIsFlat(m, v);
    FlatInterruptFrame(m, v);
    FlatInterruptFields(m, v);
  }

  lemma SlotsMatch(m: Mem)
    requires VmcbD(m, SS_BASE) < 0x1_0000 && !(2 <= VmcbW(m, RSP) < 6)
    ensures var top, sp := VmcbW(m, SS_BASE) + SubW(VmcbW(m, RSP), 6), VmcbW(m, RSP);
            Slot(m, SubW(sp, 6)) == top && Slot(m, SubW(sp, 4)) == top + 2 && Slot(m, SubW(sp, 2)) == top + 4
  {
    hide VmcbD, VmcbW;
    LowWordOf(m, SS_BASE);
  }

  /** A byte of a slot the emulated frame misses. */
  function MissedByte(m: Mem): Dword {
    if VmcbD(m, SS_BASE) < 0x1_0000 then Slot(m, SubW(VmcbW(m, RSP), 2)) else Slot(m, SubW(VmcbW(m, RSP), 6))
  }

  lemma MissedByteUntouched(m: Mem)
    requires RealStack(m) && (VmcbD(m, SS_BASE) >= 0x1_0000 || 2 <= VmcbW(m, RSP) < 6)
    ensures var a := MissedByte(m);
            && VmcbD(m, SS_BASE) <= a < VmcbD(m, SS_BASE) + 0x1_0000
            && !FrameField(a) && !InFrames(VmcbW(m, SS_BASE), VmcbW(m, RSP), 1, a)
  {
    hide VmcbD, VmcbW, TablesOk;
    LowWordOf(m, SS_BASE);
    assert forall a: int :: !InFrames(VmcbW(m, SS_BASE), SubW(VmcbW(m, RSP), 6), 0, a);
  }

  /** With that byte changed beforehand, the frame the processor would read back is wrong. */
  lemma MissedFrame(m: Mem, v: Byte)
    requires RealMode(m) && RealStack(m) && (VmcbD(m, SS_BASE) >= 0x1_0000 || 2 <= VmcbW(m, RSP) < 6)
    ensures !PushesAsProcessor(m, v)
  {
    hide SoftwareInterrupt, VmcbW, VmcbD, TablesOk, Untouched, SubW, AddW, MissedByte, RealStack;
    var a := MissedByte(m);
    MissedByteUntouched(m);
    var low: int := if VmcbD(m, SS_BASE) < 0x1_0000 then VmcbW(m, RFLAGS) % 0x100 else AddW(VmcbW(m, RIP), 2) % 0x100;
    var m2: Mem := m[a := if low == 0 then 1 else 0];
    assert SameButStack(m, m2);
    StackAside(m, m2);
    StackTables(m2);
    EmulatedFrame(m2, v);
    var m' := SoftwareInterrupt(m2, v);
    assert m'[a] == m2[a] by { StaysPut(m2, m', VmcbW(m, SS_BASE), VmcbW(m, RSP), 1, a); }
    LowByte(m', a);
    assert !HoldsFrame(m2, m') by { MissedSlotWrong(m, m2, m', a, low); }
  }

  lemma StaysPut(m: Mem, m': Mem, ss: Word, sp: Word, n: nat, a: Dword)
    requires Untouched(m, m', ss, sp, n) && !FrameField(a) && !InFrames(ss, sp, n, a)
    ensures m'[a] == m[a]
  {
    hide FrameField, InFrames;
  }

  lemma LowByte(m: Mem, a: Dword)
    ensures ReadW(m, a) % 0x100 == m[a]
  {
  }

  lemma MissedSlotWrong(m: Mem, m2: Mem, m': Mem, a: Dword, low: int)
    requires a == MissedByte(m) && ReadW(m', a) % 0x100 != low
    requires VmcbD(m2, SS_BASE) == VmcbD(m, SS_BASE) && VmcbW(m2, RSP) == VmcbW(m, RSP)
    requires VmcbW(m2, RFLAGS) == VmcbW(m, RFLAGS) && VmcbW(m2, RIP) == VmcbW(m, RIP)
    requires low == if VmcbD(m, SS_BASE) < 0x1_0000 then VmcbW(m, RFLAGS) % 0x100 else AddW(VmcbW(m, RIP), 2) % 0x100
    ensures !HoldsFrame(m2, m')
  {
    hide VmcbD, VmcbW, ReadW, AddW, SubW, Add;
  }

  /** Whatever the stack held, an emulated INT leaves the frame a processor would leave exactly
      when both segment bases lie below 64K, of which the emulation reads the low words only,
      and SP is not 2 to 5, where the processor's frame wraps round the segment and the
      emulation's runs over its end. */
  lemma PushIsArchitecturalExactlyWhen(m: Mem, v: Byte)
    requires RealMode(m) && RealStack(m)
    ensures PushesAsProcessor(m, v) <==>
            VmcbD(m, SS_BASE) < 0x1_0000 && VmcbD(m, CS_BASE) < 0x1_0000 && !(2 <= VmcbW(m, RSP) < 6)
  {
    hide SoftwareInterrupt, VmcbW, VmcbD, TablesOk, HoldsFrame, SameButStack, RealStack;
    if VmcbD(m, SS_BASE) >= 0x1_0000 || 2 <= VmcbW(m, RSP) < 6 {
      MissedFrame(m, v);
    } else if VmcbD(m, CS_BASE) >= 0x1_0000 {
      assert SameButStack(m, m) by { SameStack(m); }
      FrameHeld(m, v);
    } else {
      forall m2: Mem | SameButStack(m, m2) ensures HoldsFrame(m2, SoftwareInterrupt(m2, v)) {
        StackAside(m, m2);
        StackTables(m2);
        FrameHeld(m2, v);
      }
    }
  }

  lemma SameStack(m: Mem)
    ensures SameButStack(m, m)
  {
    hide VmcbD;
  }

  lemma FrameHeld(m: Mem, v: Byte)
    requires RealMode(m) && VmcbD(m, SS_BASE) < 0x1_0000 && !(2 <= VmcbW(m, RSP) < 6)
    ensures HoldsFrame(m, SoftwareInterrupt(m, v)) <==> VmcbD(m, CS_BASE) < 0x1_0000
  {
    hide SoftwareInterrupt, VmcbW, VmcbD, TablesOk, Untouched, ReadW, AddW, Slot, SubW;
    EmulatedFrame(m, v);
    SlotsMatch(m);
    LowWordOf(m, CS_BASE);
  }

  /** For one: a stack segment at 12340h.  The return IP goes 64K too low, and the processor's
      slot keeps its bytes. */
  lemma HighStackIsMissed(m: Mem, v: Byte)
    requires RealMode(m) && VmcbD(m, SS_BASE) == 0x1_2340 && VmcbW(m, RSP) == 0x1000
    ensures ReadW(SoftwareInterrupt(m, v), 0x2340 + 0xFFA) == AddW(VmcbW(m, RIP), 2)
    ensures ReadW(SoftwareInterrupt(m, v), 0x1_2340 + 0xFFA) == ReadW(m, 0x1_2340 + 0xFFA)
  {
    hide SoftwareInterrupt, VmcbW, VmcbD, TablesOk, Untouched, AddW;
    LowWordOf(m, SS_BASE);
    EmulatedFrame(m, v);
    assert SubW(0x1000, 6) == 0xFFA;
    var a: Dword := 0x1_2340 + 0xFFA;
    forall j: Dword | a <= j <= a + 1 ensures SoftwareInterrupt(m, v)[j] == m[j] {
      assert !InFrames(0x2340, 0x1000, 1, j) by { assert !InFrames(0x2340, 0xFFA, 0, j); }
      StaysPut(m, SoftwareInterrupt(m, v), 0x2340, 0x1000, 1, j);
    }
  }

  // ----- IRET -----

  lemma EmulatedPop(m: Mem)
    requires TablesOk(m)
    ensures var m', top := PopFrame(m), VmcbW(m, SS_BASE) + VmcbW(m, RSP);
            && VmcbW(m', RIP) == ReadW(m, top) && VmcbD(m', CS_BASE) == 0x10 * ReadW(m, top + 2)
            && VmcbW(m', RFLAGS) == SetIfClearTf(ReadW(m, top + 4))
  {
    hide PopFrame, VmcbW, VmcbD, TablesOk, Untouched, ReadW, SetIfClearTf;
    ReturnEffect(m);
  }

  lemma PopSlotsMatch(m: Mem)
    requires VmcbD(m, SS_BASE) < 0x1_0000 && VmcbW(m, RSP) < 0xFFFC
    ensures var top, sp := VmcbW(m, SS_BASE) + VmcbW(m, RSP), VmcbW(m, RSP);
            Slot(m, sp) == top && Slot(m, AddW(sp, 2)) == top + 2 && Slot(m, AddW(sp, 4)) == top + 4
  {
    hide VmcbD, VmcbW;
    LowWordOf(m, SS_BASE);
  }

  /** A byte of a slot the emulation does not read, and the one it reads instead. */
  function UnreadByte(m: Mem): Dword {
    if VmcbD(m, SS_BASE) < 0x1_0000 then Slot(m, AddW(VmcbW(m, RSP), 4)) else Slot(m, VmcbW(m, RSP))
  }

  function ReadInstead(m: Mem): Dword {
    VmcbW(m, SS_BASE) + VmcbW(m, RSP) + if VmcbD(m, SS_BASE) < 0x1_0000 then 4 else 0
  }

  lemma UnreadByteApart(m: Mem)
    requires RealStack(m) && (VmcbD(m, SS_BASE) >= 0x1_0000 || VmcbW(m, RSP) >= 0xFFFC)
    ensures VmcbD(m, SS_BASE) <= UnreadByte(m) < VmcbD(m, SS_BASE) + 0x1_0000 && UnreadByte(m) != ReadInstead(m)
  {
    hide VmcbD, VmcbW, TablesOk;
    LowWordOf(m, SS_BASE);
  }

  lemma UnreadFrame(m: Mem)
    requires RealStack(m) && (VmcbD(m, SS_BASE) >= 0x1_0000 || VmcbW(m, RSP) >= 0xFFFC)
    ensures !PopsAsProcessor(m)
  {
    hide PopFrame, VmcbW, VmcbD, TablesOk, RealStack, UnreadByte, ReadInstead;
    var a, b := UnreadByte(m), ReadInstead(m);
    UnreadByteApart(m);
    var m2: Mem := m[a := if m[b] == 0 then 1 else 0];
    assert SameButStack(m, m2);
    StackAside(m, m2);
    StackTables(m2);
    EmulatedPop(m2);
    LowByte(m2, a);
    LowByte(m2, b);
    assert !LoadsFrame(m2, PopFrame(m2)) by { UnreadSlotWrong(m, m2, PopFrame(m2)); }
  }

  lemma UnreadSlotWrong(m: Mem, m2: Mem, m': Mem)
    requires ReadW(m2, UnreadByte(m)) % 0x100 != ReadW(m2, ReadInstead(m)) % 0x100
    requires VmcbD(m2, SS_BASE) == VmcbD(m, SS_BASE) && VmcbW(m2, SS_BASE) == VmcbW(m, SS_BASE) &&
             VmcbW(m2, RSP) == VmcbW(m, RSP)
    requires var top := VmcbW(m2, SS_BASE) + VmcbW(m2, RSP);
             VmcbW(m', RIP) == ReadW(m2, top) && VmcbW(m', RFLAGS) == SetIfClearTf(ReadW(m2, top + 4))
    ensures !LoadsFrame(m2, m')
  {
    hide VmcbD, VmcbW, ReadW, AddW, Add, SetIfClearTf;
    var top := VmcbW(m2, SS_BASE) + VmcbW(m2, RSP);
    FlagsKeepLowByte(ReadW(m2, top + 4));
    FlagsKeepLowByte(ReadW(m2, Slot(m2, AddW(VmcbW(m2, RSP), 4))));
  }

  lemma FlagsKeepLowByte(flags: Word)
    ensures SetIfClearTf(flags) % 0x100 == flags % 0x100
  {
    assert SetIfClearTf(flags) == flags + (2 - flags / 0x100 % 4) * 0x100;
  }

  /** Whatever the stack held, an emulated IRET loads what a processor would load (but for IF,
      which it always sets) exactly when the stack base lies below 64K and the frame does not
      wrap round the segment. */
  lemma PopIsArchitecturalExactlyWhen(m: Mem)
    requires RealStack(m)
    ensures PopsAsProcessor(m) <==> VmcbD(m, SS_BASE) < 0x1_0000 && VmcbW(m, RSP) < 0xFFFC
  {
    hide PopFrame, VmcbW, VmcbD, LoadsFrame, SameButStack, RealStack;
    if VmcbD(m, SS_BASE) >= 0x1_0000 || VmcbW(m, RSP) >= 0xFFFC {
      UnreadFrame(m);
    } else {
      forall m2: Mem | SameButStack(m, m2) ensures LoadsFrame(m2, PopFrame(m2)) {
        StackAside(m, m2);
        StackTables(m2);
        FrameLoaded(m2);
      }
    }
  }

  lemma FrameLoaded(m: Mem)
    requires TablesOk(m) && VmcbD(m, SS_BASE) < 0x1_0000 && VmcbW(m, RSP) < 0xFFFC
    ensures LoadsFrame(m, PopFrame(m))
  {
    hide PopFrame, VmcbW, VmcbD, TablesOk, ReadW, AddW, Slot, SetIfClearTf;
    EmulatedPop(m);
    PopSlotsMatch(m);
  }
}
