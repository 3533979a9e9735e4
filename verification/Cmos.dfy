/** The CMOS latch over histories of port accesses, forwarded output, and the two reports of
    the memory size. */
module Cmos {
  import opened Memory
  import opened Paging
  import opened Vmcb
  import opened MachineState
  import opened GuestMemory
  import opened Guest
  import opened Visor
  import opened Events
  import ExitFrame

  /** A port access of the guest: port, direction and AL. */
  datatype Access = Access(port: Word, isIn: bool, al: Byte)

  function AccessOf(m: Mem): Access {
    Access(IoPort(m), IoIsIn(m), VmcbD(m, RAX) % 0x100)
  }

  /** In the bytes of EXITINFO1 (APM Volume 2, section 15.10.2): the port in the upper word, the
      direction in bit 0, and the operand's size in bits 4 to 6; AL is RAX's first byte. */
  lemma AccessBytes(m: Mem)
    ensures var info := m[VMCB_FINAL + EXITINFO1];
            && AccessOf(m) == Access(VmcbW(m, EXITINFO1 + 2), info % 2 == 1, m[VMCB_FINAL + RAX])
            && IoWidth(m) == if info / 0x10 % 2 == 1 then Bits8 else if info / 0x20 % 2 == 1 then Bits16 else Bits32
  {
    hide ReadW, ReadD;
    DwordHalves(m, VMCB_FINAL + EXITINFO1);
    FirstBytes(m, EXITINFO1);
    FirstBytes(m, RAX);
    BitsOfByte(VmcbD(m, EXITINFO1));
  }

  lemma BitsOfByte(x: Dword)
    ensures x % 0x100 % 2 == x % 2 && x % 0x100 / 0x10 % 2 == x / 0x10 % 2 && x % 0x100 / 0x20 % 2 == x / 0x20 % 2
  {
    var h, l := x / 0x100, x % 0x100;
    assert x % 2 == l % 2;
    HighPartDivides(h, l);
    EvenPart(8 * h, l / 0x10);
    EvenPart(4 * h, l / 0x20);
  }

  lemma HighPartDivides(h: nat, l: Byte)
    ensures (0x100 * h + l) / 0x10 == 2 * (8 * h) + l / 0x10 && (0x100 * h + l) / 0x20 == 2 * (4 * h) + l / 0x20
  {
  }

  lemma EvenPart(h: nat, l: nat)
    ensures (2 * h + l) % 2 == l % 2
  {
  }

  /** The port accesses among the exits of a run, oldest first. */
  function History(s: State, es: seq<Exit>): seq<Access>
    requires WellFormed(s) && ExitsOk(es)
    decreases es
  {
    hide Run, AccessOf, ExitCode;
    if es == [] then [] else
    var before, e := es[..|es| - 1], es[|es| - 1];
    History(s, before) + if !Run(s, before).halted && ExitCode(e.mem) == VMEXIT_IOIO then [AccessOf(e.mem)] else []
  }

  /** An OUT to port 70h that selects one of the two emulated registers; an IN from 71h. */
  predicate Selects(a: Access) { a.port == 0x70 && !a.isIn && EmulatedIndex(a.al) }

  predicate EmulatedIndex(index: Byte) { index == 0x17 || index == 0x18 }

  predicate Reads(a: Access) { a.port == 0x71 && a.isIn }

  /** Access i is the latest selection, and no read has come since. */
  ghost predicate Pending(h: seq<Access>, i: nat) {
    i < |h| && Selects(h[i]) && forall j: nat :: i < j < |h| ==> !Reads(h[j]) && !Selects(h[j])
  }

  /** The latch against the history it should reflect. */
  ghost predicate LatchReflects(s: State, h: seq<Access>) {
    && (s.inValueSet <==> exists i: nat :: Pending(h, i))
    && forall i: nat :: Pending(h, i) ==> s.inValue == CmosByte(GUEST_MEMORY_SIZE, h[i].al)
  }

  /** One port access moves the latch as the access says. */
  ghost predicate LatchMoves(s: State, a: Access, s': State) {
    if Selects(a) then s'.inValueSet && s'.inValue == CmosByte(GUEST_MEMORY_SIZE, a.al)
    else if Reads(a) then !s'.inValueSet
    else s'.inValueSet == s.inValueSet && s'.inValue == s.inValue
  }

  lemma HistoryStep(s: State, h: seq<Access>, a: Access, s': State)
    requires LatchReflects(s, h) && LatchMoves(s, a, s')
    ensures LatchReflects(s', h + [a])
  {
    var h' := h + [a];
    if Selects(a) {
      assert Pending(h', |h|);
      assert forall i: nat :: Pending(h', i) ==> i == |h|;
    } else if Reads(a) {
      assert h'[|h|] == a;
      assert forall i: nat :: !Pending(h', i);
    } else {
      forall i: nat ensures Pending(h', i) <==> Pending(h, i) {
        assert h'[|h|] == a;
        assert forall j: nat :: j < |h| ==> h'[j] == h[j];
      }
      assert forall i: nat :: Pending(h, i) ==> h'[i] == h[i];
    }
  }

  lemma PreparedAccess(m: Mem)
    ensures AccessOf(Prepare(m)) == AccessOf(m)
  {
    hide Prepare, VmcbD;
    PrepareEffect(m);
  }

  lemma IoMoves(s: State, portIn: Dword)
    requires WellFormed(s)
    ensures LatchMoves(s, AccessOf(s.mem), GuestIo(s, portIn))
  {
    hide VmcbD, VmcbW, PutB, PutW, Write, IoWidth, ForwardedOut, CmosByte, IoPort, IoIsIn;
  }

  lemma StepMovesLatch(s: State, portIn: Dword)
    requires WellFormed(s)
    ensures var s' := Step(s, portIn);
            if ExitCode(s.mem) == VMEXIT_IOIO then LatchMoves(s, AccessOf(s.mem), s')
            else s'.inValueSet == s.inValueSet && s'.inValue == s.inValue
  {
    hide Prepare, AccessOf, IntNo, Dispatch, LatchMoves, AnsweredByVisor, VmcbW, Only, ExitFrame.Writes;
    var s1 := s.(mem := Prepare(s.mem));
    PreparedAccess(s.mem);
    if ExitCode(s.mem) == VMEXIT_IOIO {
      IoMoves(s1, portIn);
      IoDispatch(s1, IntNo(s.mem), portIn);
      MovesWhateverMemory(s, s1, AccessOf(s.mem), GuestIo(s1, portIn));
    } else {
      ExitFrame.StepWrites(s, portIn);
    }
  }

  lemma MovesWhateverMemory(s: State, s1: State, a: Access, s': State)
    requires s1.inValue == s.inValue && s1.inValueSet == s.inValueSet && LatchMoves(s1, a, s')
    ensures LatchMoves(s, a, s')
  {
  }

  lemma IoDispatch(s: State, n: Byte, portIn: Dword)
    requires WellFormed(s)
    ensures Dispatch(s, VMEXIT_IOIO, n, portIn) == GuestIo(s, portIn)
  {
    hide GuestIo;
  }

  /** Over every run, with arbitrary exits of any kind between the port accesses: the latch is
      set exactly when some selection of 17h or 18h is still unread, and holds the byte of the
      latest one. */
  lemma {:induction false} LatchReflectsHistory(s: State, es: seq<Exit>)
    requires WellFormed(s) && ExitsOk(es) && !s.inValueSet
    ensures LatchReflects(Run(s, es), History(s, es))
    decreases es
  {
    hide Step, LatchReflects, LatchMoves, AccessOf, ExitCode;
    if es == [] {
      NothingPending(s);
    } else {
      var before, e := es[..|es| - 1], es[|es| - 1];
      var t, h := Run(s, before), History(s, before);
      LatchReflectsHistory(s, before);
      if !t.halted {
        StepMovesLatch(Entered(t, e), e.portIn);
        if ExitCode(e.mem) == VMEXIT_IOIO {
          MovesWhateverMemory(t, Entered(t, e), AccessOf(e.mem), Run(s, es));
          HistoryStep(t, h, AccessOf(e.mem), Run(s, es));
        } else {
          LatchOnly(t, Run(s, es), h);
        }
      }
      assert h + [] == h;
    }
  }

  lemma NothingPending(s: State)
    requires !s.inValueSet
    ensures LatchReflects(s, [])
  {
  }

  lemma LatchOnly(s: State, s': State, h: seq<Access>)
    requires LatchReflects(s, h) && s'.inValue == s.inValue && s'.inValueSet == s.inValueSet
    ensures LatchReflects(s', h)
  {
  }

  // ----- what a port exit does to the guest -----

  /** An IN from the write-only port 70h. */
  predicate Ignored(a: Access) { a.port == 0x70 && a.isIn }

  /** A latched IN from 71h delivers the latched byte in AL and keeps the rest of RAX; a
      selection and an IN from 70h leave RAX alone; none of them reaches the real ports; and every
      path resumes at EXITINFO2's low word. */
  lemma CmosExits(s: State, portIn: Dword)
    requires WellFormed(s) && !s.halted && ExitCode(s.mem) == VMEXIT_IOIO
    ensures var m, m', a := s.mem, Step(s, portIn).mem, AccessOf(s.mem);
            && VmcbW(m', RIP) == VmcbW(m, EXITINFO2)
            && (Reads(a) && s.inValueSet ==> VmcbD(m', RAX) == VmcbD(m, RAX) / 0x100 * 0x100 + s.inValue)
            && (Selects(a) || Ignored(a) ==> VmcbD(m', RAX) == VmcbD(m, RAX))
            && ((Reads(a) && s.inValueSet) || Selects(a) || Ignored(a) ==> Step(s, portIn).outs == s.outs)
  {
    hide Prepare, ExitCode, IntNo, Dispatch, VmcbD, VmcbW, AccessOf;
    var s1 := s.(mem := Prepare(s.mem));
    PrepareEffect(s.mem);
    PreparedAccess(s.mem);
    IoDispatch(s1, IntNo(s.mem), portIn);
    IoFields(s1, portIn);
  }

  lemma IoFields(s: State, portIn: Dword)
    requires WellFormed(s)
    ensures var m, m', a := s.mem, GuestIo(s, portIn).mem, AccessOf(s.mem);
            && VmcbW(m', RIP) == VmcbW(m, EXITINFO2)
            && (Reads(a) && s.inValueSet ==> VmcbD(m', RAX) == VmcbD(m, RAX) / 0x100 * 0x100 + s.inValue)
            && (Selects(a) || Ignored(a) ==> VmcbD(m', RAX) == VmcbD(m, RAX))
            && ((Reads(a) && s.inValueSet) || Selects(a) || Ignored(a) ==> GuestIo(s, portIn).outs == s.outs)
  {
    hide VmcbD, VmcbW, PutB, PutW, PutD, Write, IoWidth, ForwardedOut, CmosByte, IoPort, IoIsIn;
    PutLowByte(s.mem, RAX, s.inValue);
    RaxWriteKeepsInfo(s.mem, IoWidth(s.mem), portIn);
    var m1 := IoTransfer(s, portIn).mem;
    PutWEffect(m1, RIP, VmcbW(m1, EXITINFO2));
  }

  lemma RaxWriteKeepsInfo(m: Mem, w: Width, v: Dword)
    ensures VmcbW(Write(m, w, VMCB_FINAL + RAX, v), EXITINFO2) == VmcbW(m, EXITINFO2)
  {
    hide VmcbW, WriteB, WriteW, WriteD;
    PutLowByte(m, RAX, v % 0x100);
    PutWEffect(m, RAX, v % 0x1_0000);
    PutDEffect(m, RAX, v);
  }

  /** Accesses the latch does not answer. */
  predicate Forwarded(a: Access, latched: bool) {
    !Selects(a) && !(Reads(a) && latched) && !Ignored(a)
  }

  /** A forwarded IN replaces exactly the operand's bytes of EAX, a forwarded OUT keeps EAX and
      sends its bytes after everything sent before. */
  lemma ForwardedExits(s: State, portIn: Dword)
    requires WellFormed(s) && !s.halted && ExitCode(s.mem) == VMEXIT_IOIO
    requires Forwarded(AccessOf(s.mem), s.inValueSet)
    ensures var m, m', eax := s.mem, Step(s, portIn).mem, VmcbD(s.mem, RAX);
            if IoIsIn(m) then
              && VmcbD(m', RAX) == (match IoWidth(m)
                                    case Bits8 => eax / 0x100 * 0x100 + portIn % 0x100
                                    case Bits16 => eax / 0x1_0000 * 0x1_0000 + portIn % 0x1_0000
                                    case Bits32 => portIn)
              && Step(s, portIn).outs == s.outs
            else
              VmcbD(m', RAX) == eax && Step(s, portIn).outs == s.outs + ForwardedOut(IoPort(m), IoWidth(m), eax)
  {
    hide Prepare, ExitCode, IntNo, Dispatch, VmcbD, VmcbW, AccessOf, ForwardedOut, Forwarded;
    var s1 := s.(mem := Prepare(s.mem));
    PrepareEffect(s.mem);
    PreparedAccess(s.mem);
    IoDispatch(s1, IntNo(s.mem), portIn);
    ForwardedFields(s1, portIn);
  }

  lemma ForwardedFields(s: State, portIn: Dword)
    requires WellFormed(s) && Forwarded(AccessOf(s.mem), s.inValueSet)
    ensures var m, m', eax := s.mem, GuestIo(s, portIn).mem, VmcbD(s.mem, RAX);
            if IoIsIn(m) then
              && VmcbD(m', RAX) == (match IoWidth(m)
                                    case Bits8 => eax / 0x100 * 0x100 + portIn % 0x100
                                    case Bits16 => eax / 0x1_0000 * 0x1_0000 + portIn % 0x1_0000
                                    case Bits32 => portIn)
              && GuestIo(s, portIn).outs == s.outs
            else
              VmcbD(m', RAX) == eax && GuestIo(s, portIn).outs == s.outs + ForwardedOut(IoPort(m), IoWidth(m), eax)
  {
    hide VmcbD, VmcbW, PutW, Write, IoWidth, ForwardedOut, CmosByte, IoPort, IoIsIn;
    RaxAfterWrite(s.mem, IoWidth(s.mem), portIn);
    var m1 := IoTransfer(s, portIn).mem;
    PutWEffect(m1, RIP, VmcbW(m1, EXITINFO2));
  }

  lemma RaxAfterWrite(m: Mem, w: Width, v: Dword)
    ensures VmcbD(Write(m, w, VMCB_FINAL + RAX, v), RAX) ==
            match w
            case Bits8 => VmcbD(m, RAX) / 0x100 * 0x100 + v % 0x100
            case Bits16 => VmcbD(m, RAX) / 0x1_0000 * 0x1_0000 + v % 0x1_0000
            case Bits32 => v
  {
    hide VmcbD, WriteB, WriteW, WriteD;
    PutLowByte(m, RAX, v % 0x100);
    PutLowWord(m, RAX, v % 0x1_0000);
    PutDEffect(m, RAX, v);
  }

  // ----- forwarded output -----

  /** What an OUT of the given width sends: byte k of EAX to the k-th port. */
  function ArchitecturalOut(port: Word, w: Width, v: Dword): seq<PortWrite> {
    var b0 := PortWrite(port, ByteOf(v, 0));
    match w
    case Bits8 => [b0]
    case Bits16 => [b0, PortWrite(AddW(port, 1), ByteOf(v, 1))]
    case Bits32 =>
      [b0, PortWrite(AddW(port, 1), ByteOf(v, 1)), PortWrite(AddW(port, 2), ByteOf(v, 2)),
       PortWrite(AddW(port, 3), ByteOf(v, 3))]
  }

  lemma OutByteIsZeroAbove(v: Dword)
    ensures OutByte(v, 0) == ByteOf(v, 0) && OutByte(v, 1) == 0 && OutByte(v, 2) == 0 && OutByte(v, 3) == 0
  {
    hide ByteOf;
    assert ByteOf(v, 0) == v % 0x100 by { FirstByte(v); }
    ShiftedOut(ByteOf(v, 1));
    ShiftedOut(ByteOf(v, 2));
    ShiftedOut(ByteOf(v, 3));
  }

  lemma FirstByte(v: Dword)
    ensures ByteOf(v, 0) == v % 0x100
  {
  }

  lemma ShiftedOut(b: Byte)
    ensures b * 0x100 % 0x100 == 0 && b * 0x1_0000 % 0x100 == 0 && b * 0x100_0000 % 0x100 == 0
  {
  }

  /** Casting before shifting loses every byte but the lowest: zeros are sent for the others, so
      forwarding is right exactly when the upper bytes of the operand are zero. */
  lemma ForwardedOutRightExactlyWhen(port: Word, w: Width, v: Dword)
    ensures ForwardedOut(port, w, v) == ArchitecturalOut(port, w, v % 0x100)
    ensures ForwardedOut(port, w, v) == ArchitecturalOut(port, w, v) <==>
            (match w case Bits8 => true case Bits16 => v / 0x100 % 0x100 == 0 case Bits32 => v / 0x100 == 0)
  {
    hide OutByte;
    OutByteIsZeroAbove(v);
    UpperBytes(v);
    var f, a := ForwardedOut(port, w, v), ArchitecturalOut(port, w, v);
    match w
    case Bits8 =>
    case Bits16 =>
      assert f == a <==> f[1] == a[1];
    case Bits32 =>
      assert f == a <==> f[1] == a[1] && f[2] == a[2] && f[3] == a[3];
  }

  lemma UpperBytes(v: Dword)
    ensures v / 0x100 == 0 <==> ByteOf(v, 1) == 0 && ByteOf(v, 2) == 0 && ByteOf(v, 3) == 0
  {
    SplitDword(v);
  }

  // ----- memory size -----

  /** The two CMOS bytes recombine to the AX value of INT 15h AH=88h for every size of at least
      1 MiB, and to the true size exactly while that fits 16 bits. */
  lemma MemorySizeReportsAgree(size: Dword)
    requires size >= 0x10_0000
    ensures var kb: int := CmosByte(size, 0x17) + 0x100 * CmosByte(size, 0x18);
            && kb == ExtendedKb(size) % 0x1_0000
            && (kb == ExtendedKb(size) <==> ExtendedKb(size) < 0x1_0000)
  {
    var k := ExtendedKb(size);
    assert 0 <= k;
    assert k % 0x1_0000 == k % 0x100 + 0x100 * (k / 0x100 % 0x100);
  }

  /** An IN from 71h at the end of any run delivers, in AL, the byte of the selection pending in
      the run's history. */
  lemma ReadDeliversLatestSelection(s: State, es: seq<Exit>, i: nat, e: Exit)
    requires WellFormed(s) && ExitsOk(es) && !s.inValueSet && |e.regs| == 14
    requires !Run(s, es).halted && ExitCode(e.mem) == VMEXIT_IOIO && Reads(AccessOf(e.mem))
    requires Pending(History(s, es), i)
    ensures VmcbD(Turn(Run(s, es), e).mem, RAX) ==
            VmcbD(e.mem, RAX) / 0x100 * 0x100 + CmosByte(GUEST_MEMORY_SIZE, History(s, es)[i].al)
  {
    hide Step, ExitCode, AccessOf, VmcbD, VmcbW, Pending, Reads;
    LatchReflectsHistory(s, es);
    CmosExits(Entered(Run(s, es), e), e.portIn);
  }

  lemma LowByteOf(x: Dword, c: Byte)
    ensures (x / 0x100 * 0x100 + c) % 0x100 == c
  {
  }

  lemma AlAfterRead(s: State, es: seq<Exit>, i: nat, e: Exit)
    requires WellFormed(s) && ExitsOk(es) && !s.inValueSet && |e.regs| == 14
    requires !Run(s, es).halted && ExitCode(e.mem) == VMEXIT_IOIO && Reads(AccessOf(e.mem))
    requires Pending(History(s, es), i)
    ensures VmcbD(Turn(Run(s, es), e).mem, RAX) % 0x100 == CmosByte(GUEST_MEMORY_SIZE, History(s, es)[i].al)
  {
    hide Turn, Run, ExitCode, AccessOf, VmcbD, CmosByte, Reads, History;
    ReadDeliversLatestSelection(s, es, i, e);
    LowByteOf(VmcbD(e.mem, RAX), CmosByte(GUEST_MEMORY_SIZE, History(s, es)[i].al));
  }

  // ----- whether it is the register the guest asked for -----

  /** An OUT to port 70h of any index. */
  predicate WritesIndex(a: Access) { a.port == 0x70 && !a.isIn }

  /** Access j wrote the index the guest asked for last. */
  ghost predicate LastIndex(h: seq<Access>, j: nat) {
    j < |h| && WritesIndex(h[j]) && forall k: nat :: j < k < |h| ==> !WritesIndex(h[k])
  }

  /** Access k is the last index write forwarded to the real chip, which sees no selection of the
      emulated registers.  (A wider OUT to the ports below 70h would reach it too.) */
  ghost predicate ChipIndex(h: seq<Access>, k: nat) {
    && k < |h| && WritesIndex(h[k]) && !EmulatedIndex(h[k].al)
    && forall l: nat :: k < l < |h| ==> !WritesIndex(h[l]) || EmulatedIndex(h[l].al)
  }

  /** The register whose byte the next IN from 71h delivers: the pending selection, or else the
      one the chip was told of last. */
  ghost predicate Serves(h: seq<Access>, index: Byte) {
    if exists i: nat :: Pending(h, i) then exists i: nat :: Pending(h, i) && h[i].al == index
    else exists k: nat :: ChipIndex(h, k) && h[k].al == index
  }

  /** An index write other than a selection does not clear the latch, and a read does not bring a
      selection back.  So the next IN from 71h is of the register asked for last exactly when
      that is an emulated one not read since, or another with no selection pending. */
  lemma ServesLastIndexExactlyWhen(h: seq<Access>, j: nat)
    requires LastIndex(h, j)
    ensures Serves(h, h[j].al) <==>
            if EmulatedIndex(h[j].al) then forall k: nat :: j < k < |h| ==> !Reads(h[k])
            else forall i: nat :: !Pending(h, i)
  {
    if EmulatedIndex(h[j].al) {
      assert (forall k: nat :: j < k < |h| ==> !Reads(h[k])) <==> Pending(h, j);
      if i: nat :| Pending(h, i) {
        assert WritesIndex(h[i]);
        assert i == j;
      } else {
        assert forall k: nat :: ChipIndex(h, k) ==> !EmulatedIndex(h[k].al);
      }
    } else {
      assert forall i: nat :: Pending(h, i) ==> EmulatedIndex(h[i].al);
      assert ChipIndex(h, j);
    }
  }

  /** For a latched read at the end of any run: it is of the register asked for last exactly when
      that is one of the two emulated ones. */
  lemma LatchedReadRightExactlyWhen(s: State, es: seq<Exit>, i: nat, j: nat, e: Exit)
    requires WellFormed(s) && ExitsOk(es) && !s.inValueSet && |e.regs| == 14
    requires !Run(s, es).halted && ExitCode(e.mem) == VMEXIT_IOIO && Reads(AccessOf(e.mem))
    requires Pending(History(s, es), i) && LastIndex(History(s, es), j)
    ensures VmcbD(Turn(Run(s, es), e).mem, RAX) % 0x100 == CmosByte(GUEST_MEMORY_SIZE, History(s, es)[i].al)
    ensures History(s, es)[i].al == History(s, es)[j].al <==> EmulatedIndex(History(s, es)[j].al)
  {
    hide Turn, Run, ExitCode, AccessOf, VmcbD, CmosByte, History;
    AlAfterRead(s, es, i, e);
    var h := History(s, es);
    assert i <= j;
    if i < j {
      assert !Selects(h[j]);
    }
  }

  lemma AxAfterInt15(s: State, portIn: Dword)
    requires WellFormed(s) && IsInterruptExit(s) && s.mem[VMCB_FINAL + EXITINFO1] == 0x15
    requires s.mem[VMCB_FINAL + RAX + 1] == 0x88
    ensures VmcbW(Step(s, portIn).mem, RAX) == ExtendedKb(GUEST_MEMORY_SIZE)
  {
    hide Step, ExitCode, VmcbD, VmcbW, Only;
    EmulatesOrInjects(s, portIn);
  }

  /** The run ends with an IN from 71h while a selection of the given index is pending. */
  ghost predicate ReadsIndex(s: State, es: seq<Exit>, e: Exit, index: Byte)
    requires WellFormed(s) && ExitsOk(es)
  {
    && !Run(s, es).halted && ExitCode(e.mem) == VMEXIT_IOIO && Reads(AccessOf(e.mem))
    && exists i: nat :: Pending(History(s, es), i) && History(s, es)[i].al == index
  }

  /** The two reports of the memory size agree: AL read after 17h was selected and AL read after
      18h was selected, whatever else the two runs did, recombine to the size that the emulated
      INT 15h AH=88h puts in AX. */
  lemma ReportsAgreeOverRuns(s: State, es: seq<Exit>, e: Exit, fs: seq<Exit>, f: Exit)
    requires WellFormed(s) && ExitsOk(es) && ExitsOk(fs) && !s.inValueSet && |e.regs| == |f.regs| == 14
    requires ReadsIndex(s, es, e, 0x17) && ReadsIndex(s, fs, f, 0x18)
    ensures var low, high := VmcbD(Turn(Run(s, es), e).mem, RAX) % 0x100, VmcbD(Turn(Run(s, fs), f).mem, RAX) % 0x100;
            low + 0x100 * high == 0xC00
  {
    hide Step, Turn, Run, History, ExitCode, AccessOf, VmcbD, Reads, CmosByte;
    var i: nat :| Pending(History(s, es), i) && History(s, es)[i].al == 0x17;
    var j: nat :| Pending(History(s, fs), j) && History(s, fs)[j].al == 0x18;
    AlAfterRead(s, es, i, e);
    AlAfterRead(s, fs, j, f);
    MemorySizeReportsAgree(GUEST_MEMORY_SIZE);
  }
}
