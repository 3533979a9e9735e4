/** How a guest breaks out of tables that are not sealed, and so the exact condition under which
    it is confined. */
module BreakOut {
  import opened Memory
  import opened Paging
  import opened Vmcb
  import opened MachineState
  import opened Visor
  import opened Runs
  import opened Confinement

  /** What is written between the guest's last store and its next entry on an exit that asks
      nothing of the visor: the exit code, and what the visor does on every exit. */
  ghost predicate Scratch(a: int) {
    || VMCB_FINAL + EXITCODE <= a < VMCB_FINAL + EXITCODE + 2
    || VMCB_FINAL + EVENT_VALID <= a < VMCB_FINAL + EVENT_VALID + 4
    || VMCB_FINAL + CLEAN_BITS <= a < VMCB_FINAL + CLEAN_BITS + 2
  }

  ghost predicate SameButScratch(m: Mem, m': Mem) {
    forall a: Dword {:trigger m[a]} {:trigger m'[a]} :: !Scratch(a) ==> m'[a] == m[a]
  }

  /** A single write that reaches the visor's memory, or after which the confinement is broken
      whatever the exit adds to it. */
  ghost predicate Breaks(m: Mem, w: GuestWrite) {
    Intrudes(m, w) || forall m': Mem :: SameButScratch(Written(m, w), m') ==> !Kept(m, m')
  }

  function Flipped(b: Byte): (r: Byte)
    ensures r % 2 != b % 2
  {
    if b == 0 then 1 else b - 1
  }

  /** Addresses of one page walk to one page, each at its own offset. */
  lemma SamePageSameWalk(m: Mem, p: Dword, k: Dword)
    requires k < 0x1000 && PageOf(p) + k < MEM_SIZE
    ensures match Walk(m, NESTED_DIR_FINAL, p)
            case Fault => Walk(m, NESTED_DIR_FINAL, PageOf(p) + k) == Fault
            case Phys(a) => Walk(m, NESTED_DIR_FINAL, PageOf(p) + k) == Phys(Join(PageOf(a), k))
  {
    hide ReadD, Present, PageOf, Offset;
    SamePage(p, k);
    var pte := ReadD(m, PteAddress(NestedPde(m, p), p));
    SamePage(pte, k);
    SamePage(pte, 0);
    JoinParts(pte, p);
    SmallOffset(k);
  }

  lemma SmallOffset(k: Dword)
    requires k < 0x1000
    ensures Offset(k) == k
  {
  }

  lemma SamePage(a: Dword, k: Dword)
    requires k < 0x1000
    ensures PageOf(a) + k < MEM_SIZE && Offset(PageOf(a) + k) == k && PageOf(PageOf(a) + k) == PageOf(a)
    ensures (PageOf(a) + k) / 0x1000 == a / 0x1000 && (PageOf(a) + k) / 0x40_0000 == a / 0x40_0000
  {
    var q := a / 0x1000;
    InPage(q, k);
    assert (0x1000 * q + k) / 0x1000 == q;
    assert a / 0x40_0000 == q / 0x400 && (0x1000 * q + k) / 0x40_0000 == q / 0x400;
  }

  /** Flipping the lowest bit of the entry at e, in a way that the exit leaves alone. */
  lemma EntryFlipped(m: Mem, m': Mem, e: Dword)
    requires e + 4 <= MEM_SIZE && m'[e] % 2 != m[e] % 2
    ensures Present(ReadD(m', e)) <==> !Present(ReadD(m, e))
  {
    hide ReadD, Present, PageOf;
    EntryParts(m, e);
    EntryParts(m', e);
  }

  /** A directory entry in use can be switched off. */
  lemma DirFlipped(m: Mem, m': Mem, p: Dword)
    requires Present(NestedPde(m, p))
    requires var e := PdeAddress(NESTED_DIR_FINAL, p); m'[e] % 2 != m[e] % 2
    ensures Walk(m', NESTED_DIR_FINAL, p) == Fault
  {
    hide ReadD, Present;
    EntryFlipped(m, m', PdeAddress(NESTED_DIR_FINAL, p));
  }

  /** A table entry can be switched on or off. */
  lemma TableFlipped(m: Mem, m': Mem, i: int, j: int, x: Dword)
    requires TableOf(m, i, x) && 0 <= j < 0x400 && PageOf(x) != NESTED_DIR_FINAL
    requires ReadD(m', NESTED_DIR_FINAL + 4 * i) == ReadD(m, NESTED_DIR_FINAL + 4 * i)
    requires var e: Dword := PageOf(x) + 4 * j; m'[e] % 2 != m[e] % 2
    ensures !Kept(m, m')
  {
    hide ReadD, Present, SameProtected, PageOf;
    SamePage(x, 4 * j + 3);
    var p: Dword, e: Dword := 0x40_0000 * i + 0x1000 * j, PageOf(x) + 4 * j;
    DirAligned();
    TableIndex(i, j);
    EntryFlipped(m, m', e);
    assert Walk(m', NESTED_DIR_FINAL, p) != Walk(m, NESTED_DIR_FINAL, p);
  }

  lemma TableIndex(i: int, j: int)
    requires 0 <= i < 0x400 && 0 <= j < 0x400
    ensures var p := 0x40_0000 * i + 0x1000 * j; p / 0x40_0000 == i && p / 0x1000 % 0x400 == j
  {
    var p := 0x40_0000 * i + 0x1000 * j;
    assert p / 0x1000 == 0x400 * i + j;
  }

  /** A protected field can be overwritten. */
  lemma FieldFlipped(m: Mem, m': Mem)
    requires m'[VMCB_FINAL + NESTED_CR3] != m[VMCB_FINAL + NESTED_CR3]
    ensures !Kept(m, m')
  {
    hide Walk;
    assert Protected(VMCB_FINAL + NESTED_CR3);
  }

  /** A page that leads to the VMCB, the nested directory or a nested table: the guest rewrites the
      nested CR3, switches off the directory entry it came by, or flips an entry of that table. */
  lemma LeafBreaks(m: Mem, p: Dword, a: Dword) returns (w: GuestWrite)
    requires Walk(m, NESTED_DIR_FINAL, p) == Phys(a) && !FrameClear(m, a) && !VisorByte(a)
    ensures Breaks(m, w)
  {
    hide Walk, PageOf, Flipped, Kept, VisorByte, Scratch, ReadD, Present;
    VmcbAligned();
    DirAligned();
    PageApart(a, VMCB_FINAL);
    PageApart(a, NESTED_DIR_FINAL);
    var k: Dword, i: int := 0, 0;
    if PageOf(a) == VMCB_FINAL {
      k := NESTED_CR3;
    } else if PageOf(a) == NESTED_DIR_FINAL {
      k := 4 * (p / 0x40_0000);
    } else {
      i :| TableOf(m, i, a);
    }
    SamePage(p, k);
    SamePageSameWalk(m, p, k);
    SamePage(a, k);
    SamePage(a, 0);
    SmallOffset(k);
    var x: Dword := PageOf(a) + k;
    var v := Flipped(m[x]);
    w := Poke(PageOf(p) + k, v);
    assert Written(m, w) == m[x := v];
    forall m': Mem | SameButScratch(m[x := v], m') ensures !Kept(m, m') {
      assert m'[x] == v by { ScratchAside(m, x, PageOf(a)); }
      if PageOf(a) == VMCB_FINAL {
        FieldFlipped(m, m');
      } else if PageOf(a) == NESTED_DIR_FINAL {
        PhysIsPresent(m, p);
        DirFlipped(m, m', p);
        WalkDiffers(m, m', p);
      } else {
        DirEntryElsewhere(m, m', i, x, v);
        TableFlipped(m, m', i, 0, a);
      }
    }
  }

  lemma ScratchAside(m: Mem, x: Dword, page: Dword)
    requires page == VMCB_FINAL ==> x == VMCB_FINAL + NESTED_CR3
    requires page != VMCB_FINAL ==> x < VMCB_FINAL || VMCB_FINAL + 0x1000 <= x
    ensures !Scratch(x)
  {
  }

  lemma PhysIsPresent(m: Mem, p: Dword)
    ensures Walk(m, NESTED_DIR_FINAL, p) == Fault || Present(NestedPde(m, p))
  {
    hide ReadD, Present, Join;
  }

  lemma WalkDiffers(m: Mem, m': Mem, p: Dword)
    requires Walk(m', NESTED_DIR_FINAL, p) != Walk(m, NESTED_DIR_FINAL, p)
    ensures !Kept(m, m')
  {
    hide Walk, SameProtected;
  }

  lemma PageApart(x: Dword, page: Dword)
    requires page % 0x1000 == 0
    ensures PageOf(x) != page ==> PageOf(x) < page || page + 0x1000 <= PageOf(x)
  {
  }

  lemma DirEntryElsewhere(m: Mem, m': Mem, i: int, x: Dword, v: Byte)
    requires 0 <= i < 0x400 && SameButScratch(m[x := v], m')
    requires x < NESTED_DIR_FINAL || NESTED_DIR_FINAL + 0x1000 <= x
    ensures ReadD(m', NESTED_DIR_FINAL + 4 * i) == ReadD(m, NESTED_DIR_FINAL + 4 * i)
  {
  }

  /** A page of the VMCB or of the visor's own memory as a nested table: RAX, as the processor saves
      it, is an entry, or the visor's own writes change one. */
  lemma TableBreaks(m: Mem, i: int, x: Dword) returns (w: GuestWrite)
    requires TableOf(m, i, x) && Reserved(x)
    ensures Breaks(m, w)
  {
    hide PageOf, Flipped, Kept, ReadD, Present, VisorByte, Intrudes, Scratch;
    var e: Dword, j: int := PageOf(x), 0;
    if VisorByte(x) {
      VisorPage(x);
      w := Own(e, Flipped(m[e]));
    } else {
      e, j := VMCB_FINAL + RAX, RAX / 4;
      w := Save(RAX, Flipped(m[e]));
      assert !Protected(e);
    }
    var v := Flipped(m[e]);
    assert Written(m, w) == m[e := v];
    forall m': Mem | SameButScratch(m[e := v], m') ensures !Kept(m, m') {
      assert m'[e] == v by { EntryNotScratch(e); }
      DirEntryElsewhere(m, m', i, e, v);
      TableFlipped(m, m', i, j, x);
    }
  }

  lemma EntryNotScratch(e: Dword)
    ensures e == VMCB_FINAL + RAX || e < VMCB_FINAL || VMCB_FINAL + 0x1000 <= e ==> !Scratch(e)
  {
  }

  /** The visor's memory consists of whole pages apart from the VMCB and the nested directory. */
  lemma VisorPage(x: Dword)
    requires VisorByte(x)
    ensures VisorByte(PageOf(x)) && PageOf(x) != NESTED_DIR_FINAL
    ensures PageOf(x) < VMCB_FINAL || VMCB_FINAL + 0x1000 <= PageOf(x)
    ensures PageOf(x) < NESTED_DIR_FINAL || NESTED_DIR_FINAL + 0x1000 <= PageOf(x)
  {
  }

  lemma UnsealedBreaks(m: Mem) returns (w: GuestWrite)
    requires !Sealed(m)
    ensures Breaks(m, w)
  {
    hide Walk, PageOf, Written, Kept, TableOf, VisorByte, FrameClear;
    if x: Dword :| IsTable(m, x) && Reserved(x) {
      var i: int :| TableOf(m, i, x);
      w := TableBreaks(m, i, x);
    } else {
      var p: Dword :| !LeafClear(m, p);
      var a := Walk(m, NESTED_DIR_FINAL, p).addr;
      if VisorByte(a) {
        w := Poke(p, 0);
        assert Intrudes(m, w);
      } else {
        w := LeafBreaks(m, p, a);
      }
    }
  }

  /** The one write, and then an exit for a nested page fault, for which the visor does nothing. */
  ghost function QuietRun(s: State, w: GuestWrite): seq<Event> {
    [Write(w), Write(Save(EXITCODE, VMEXIT_NPF % 0x100)), Write(Save(EXITCODE + 1, VMEXIT_NPF / 0x100)),
     Leave(s.regs, 0)]
  }

  lemma QuietRunIsQuiet(s: State, w: GuestWrite)
    requires WellFormed(s) && !s.halted
    ensures SameButScratch(Written(s.mem, w), GuestRun(s, QuietRun(s, w)).mem)
    ensures Intrudes(s.mem, w) ==> RunIntrudes(s, QuietRun(s, w))
  {
    hide Written, Prepare, Dispatch, Intrudes, SameButScratch;
    var es := QuietRun(s, w);
    assert es[..3][..2][..1][..0] == [] && es[..3][..2][..1] == [es[0]] && es[..3][..2] == [es[0], es[1]];
    var s0 := GuestRun(s, []);
    var s1 := GuestRun(s, es[..3][..2][..1]);
    assert s1 == s.(mem := Written(s.mem, w));
    var s2 := GuestRun(s, es[..3][..2]);
    var s3 := GuestRun(s, es[..3]);
    SaveExitCode(s1.mem);
    NpfDoesNothing(Entered(s3, Exit(s3.mem, s.regs, 0)), 0);
    PrepareScratch(s3.mem);
    assert Intrudes(s.mem, w) ==> RunIntrudes(s, es[..3][..2][..1]);
    assert Intrudes(s.mem, w) ==> RunIntrudes(s, es[..3][..2]);
    assert Intrudes(s.mem, w) ==> RunIntrudes(s, es[..3]);
    ScratchTransitive(s1.mem, s3.mem, Prepare(s3.mem));
  }

  lemma ScratchTransitive(m0: Mem, m1: Mem, m2: Mem)
    requires SameButScratch(m0, m1) && SameButScratch(m1, m2)
    ensures SameButScratch(m0, m2)
  {
    hide Scratch;
  }

  lemma SaveExitCode(m: Mem)
    ensures var m' := Written(Written(m, Save(EXITCODE, VMEXIT_NPF % 0x100)), Save(EXITCODE + 1, VMEXIT_NPF / 0x100));
            SameButScratch(m, m') && ExitCode(m') == VMEXIT_NPF
  {
  }

  lemma NpfDoesNothing(s: State, portIn: Dword)
    requires WellFormed(s) && ExitCode(s.mem) == VMEXIT_NPF
    ensures Step(s, portIn).mem == Prepare(s.mem)
  {
    hide Prepare, ExitCode, IntNo;
  }

  lemma PrepareScratch(m: Mem)
    ensures SameButScratch(m, Prepare(m))
  {
  }

  /** From unsealed tables a run of one exit breaks the confinement: a protected field or a
      translation differs after it, or the visor's memory was written to. */
  lemma UnsealedRunBreaks(s: State) returns (es: seq<Event>)
    requires Initial(s) && !s.halted && NestedOn(s.mem) && !Sealed(s.mem)
    ensures EventsOk(es) && (RunIntrudes(s, es) || !Kept(s.mem, GuestRun(s, es).mem))
  {
    hide Sealed, Kept, GuestRun, RunIntrudes, Written, Intrudes, SameButScratch;
    var w := UnsealedBreaks(s.mem);
    es := QuietRun(s, w);
    QuietRunIsQuiet(s, w);
  }

  /** Over all runs, whatever the guest does, the protected fields and every nested translation
      stay as they are and the visor's memory is the visor's alone, exactly when the tables in use
      are sealed to begin with. */
  lemma ConfinedExactlyWhen(s: State)
    requires Initial(s) && !s.halted && NestedOn(s.mem)
    ensures Sealed(s.mem) <==>
            forall es: seq<Event> ::
              EventsOk(es) ==> Kept(s.mem, GuestRun(s, es).mem) && !RunIntrudes(s, es)
  {
    hide Sealed, Kept, GuestRun, RunIntrudes, VmcbD, VmcbB;
    if Sealed(s.mem) {
      forall es: seq<Event> | EventsOk(es) ensures Kept(s.mem, GuestRun(s, es).mem) && !RunIntrudes(s, es) {
        SealedRunKeeps(s, es);
        SameNestedKeepsWalks(s.mem, GuestRun(s, es).mem);
      }
    } else {
      var es := UnsealedRunBreaks(s);
    }
  }
}
