/** The virtual machine control block, which lives at a fixed physical address: the offsets
    the visor uses and access to it in byte, word and doubleword units. */
module Vmcb {
  import opened Memory
  import opened Paging

  const IOPM_BASE_PA: Dword := 0x40
  const EXITCODE: Dword := 0x70
  const EXITINFO1: Dword := 0x78
  const EXITINFO2: Dword := 0x80
  const EXITINTINFO: Dword := 0x88
  const NESTED_PAGING: Dword := 0x90
  const EVENTINJ: Dword := 0xA8
  const EVENT_VALID: Dword := 0xAC
  const NESTED_CR3: Dword := 0xB0
  const CLEAN_BITS: Dword := 0xC0
  const NRIP: Dword := 0xC8
  const CS_BASE: Dword := 0x418
  const SS_BASE: Dword := 0x428
  const CR0: Dword := 0x558
  const RFLAGS: Dword := 0x570
  const RIP: Dword := 0x578
  const RSP: Dword := 0x5D8
  const RAX: Dword := 0x5F8

  type Field = x: int | 0 <= x < 0x1000

  function VmcbB(m: Mem, f: Field): Byte { ReadB(m, VMCB_FINAL + f) }

  function VmcbW(m: Mem, f: Field): Word { ReadW(m, VMCB_FINAL + f) }

  function VmcbD(m: Mem, f: Field): Dword { ReadD(m, VMCB_FINAL + f) }

  function PutB(m: Mem, f: Field, v: Byte): Mem { WriteB(m, VMCB_FINAL + f, v) }

  function PutW(m: Mem, f: Field, v: Word): Mem { WriteW(m, VMCB_FINAL + f, v) }

  function PutD(m: Mem, f: Field, v: Dword): Mem { WriteD(m, VMCB_FINAL + f, v) }

  /** A field reads back what was put there, and the fields beside it are as before. */
  lemma PutWEffect(m: Mem, f: Field, v: Word)
    ensures VmcbW(PutW(m, f, v), f) == v
    ensures forall g: Field {:trigger VmcbW(PutW(m, f, v), g)} :: g + 2 <= f || f + 2 <= g ==>
            VmcbW(PutW(m, f, v), g) == VmcbW(m, g)
    ensures forall g: Field {:trigger VmcbD(PutW(m, f, v), g)} :: g + 4 <= f || f + 2 <= g ==>
            VmcbD(PutW(m, f, v), g) == VmcbD(m, g)
  {
    hide ReadW, ReadD, WriteW;
    WriteWEffect(m, VMCB_FINAL + f, v);
  }

  lemma PutDEffect(m: Mem, f: Field, v: Dword)
    ensures VmcbD(PutD(m, f, v), f) == v
    ensures forall g: Field {:trigger VmcbW(PutD(m, f, v), g)} :: g + 2 <= f || f + 4 <= g ==>
            VmcbW(PutD(m, f, v), g) == VmcbW(m, g)
    ensures forall g: Field {:trigger VmcbD(PutD(m, f, v), g)} :: g + 4 <= f || f + 4 <= g ==>
            VmcbD(PutD(m, f, v), g) == VmcbD(m, g)
  {
    hide ReadW, ReadD, WriteD;
    WriteDEffect(m, VMCB_FINAL + f, v);
  }

  /** Writing a field's low half keeps its high half. */
  lemma PutLowWord(m: Mem, f: Field, v: Word)
    ensures VmcbD(PutW(m, f, v), f) == VmcbD(m, f) / 0x1_0000 * 0x1_0000 + v
  {
    hide ReadW, ReadD, WriteW;
    WriteWEffect(m, VMCB_FINAL + f, v);
    DwordHalves(m, VMCB_FINAL + f);
    DwordHalves(PutW(m, f, v), VMCB_FINAL + f);
  }

  lemma PutLowByte(m: Mem, f: Field, v: Byte)
    ensures VmcbD(PutB(m, f, v), f) == VmcbD(m, f) / 0x100 * 0x100 + v
    ensures forall g: Field {:trigger VmcbW(PutB(m, f, v), g)} :: g + 2 <= f || f + 1 <= g ==>
            VmcbW(PutB(m, f, v), g) == VmcbW(m, g)
    ensures forall g: Field {:trigger VmcbD(PutB(m, f, v), g)} :: g + 4 <= f || f + 1 <= g ==>
            VmcbD(PutB(m, f, v), g) == VmcbD(m, g)
  {
  }

  lemma LowWordOf(m: Mem, f: Field)
    ensures VmcbW(m, f) == VmcbD(m, f) % 0x1_0000
  {
  }

  // ----- parts of the VMCB -----

  /** A field, or the low bytes of one. */
  datatype Part = Part(field: Field, size: nat)

  ghost predicate InParts(ps: set<Part>, a: int) {
    exists p :: p in ps && VMCB_FINAL + p.field <= a < VMCB_FINAL + p.field + p.size
  }

  /** Nothing in memory differs but these parts. */
  ghost predicate Only(m: Mem, m': Mem, ps: set<Part>) {
    forall a: Dword {:trigger m[a]} {:trigger m'[a]} :: !InParts(ps, a) ==> m'[a] == m[a]
  }

  lemma OnlyItself(m: Mem, ps: set<Part>)
    ensures Only(m, m, ps)
  {
  }

  lemma OnlyPutB(m0: Mem, m: Mem, ps: set<Part>, p: Part, v: Byte)
    requires Only(m0, m, ps) && p in ps && 1 <= p.size
    ensures Only(m0, PutB(m, p.field, v), ps)
  {
    assert InParts(ps, VMCB_FINAL + p.field);
    hide InParts;
  }

  lemma OnlyPutW(m0: Mem, m: Mem, ps: set<Part>, p: Part, v: Word)
    requires Only(m0, m, ps) && p in ps && 2 <= p.size
    ensures Only(m0, PutW(m, p.field, v), ps)
  {
    assert InParts(ps, VMCB_FINAL + p.field) && InParts(ps, VMCB_FINAL + p.field + 1);
    hide InParts;
  }

  lemma OnlyPutD(m0: Mem, m: Mem, ps: set<Part>, p: Part, v: Dword)
    requires Only(m0, m, ps) && p in ps && 4 <= p.size
    ensures Only(m0, PutD(m, p.field, v), ps)
  {
    assert InParts(ps, VMCB_FINAL + p.field) && InParts(ps, VMCB_FINAL + p.field + 1) &&
           InParts(ps, VMCB_FINAL + p.field + 2) && InParts(ps, VMCB_FINAL + p.field + 3);
    hide InParts;
  }

  lemma OnlyMore(m: Mem, m': Mem, ps: set<Part>, qs: set<Part>)
    requires Only(m, m', ps) && ps <= qs
    ensures Only(m, m', qs)
  {
    assert forall a: int :: InParts(ps, a) ==> InParts(qs, a);
    hide InParts;
  }

  lemma OnlyThen(m: Mem, m1: Mem, m2: Mem, ps: set<Part>, qs: set<Part>)
    requires Only(m, m1, ps) && Only(m1, m2, qs)
    ensures Only(m, m2, ps + qs)
  {
    hide Only;
    OnlyMore(m, m1, ps, ps + qs);
    OnlyMore(m1, m2, qs, ps + qs);
    OnlyTwice(m, m1, m2, ps + qs);
  }

  lemma OnlyTwice(m: Mem, m1: Mem, m2: Mem, ps: set<Part>)
    requires Only(m, m1, ps) && Only(m1, m2, ps)
    ensures Only(m, m2, ps)
  {
    hide InParts;
  }
}
