/** Guest memory under the visor's own tables: guest-mode accesses behave as accesses to a
    flat little-endian byte memory. */
module GuestMemory {
  import opened Memory
  import opened Paging

  const GUEST_MEMORY_SIZE: Dword := 0x40_0000

  /** The guest root is the one SetupVMCB installs, and both levels map the guest's 4 MiB to
      themselves. */
  ghost predicate TablesOk(m: Mem) {
    && GuestCr3(m) == GUEST_CR3_VALUE
    && IdentityFrames(m, GUEST_CR3_VALUE, 1)
    && IdentityFrames(m, NESTED_DIR_FINAL, 1)
  }

  lemma TranslateIsIdentity(m: Mem, a: Dword)
    requires TablesOk(m) && a < GUEST_MEMORY_SIZE
    ensures TranslateGuestPhysicalAddress(m, a) == a
  {
    hide FlatLookup, IdentityFrames;
    IdentityLookup(m, GUEST_CR3_VALUE, 1, a);
    IdentityLookup(m, NESTED_DIR_FINAL, 1, a);
  }

  /** The bytes the flat lookup depends on below 4 MiB: the VMCB's CR3 field and one table a
      level. */
  ghost predicate TableByteAddress(a: int) {
    || VMCB_FINAL + SAVE_STATE_CR3 <= a < VMCB_FINAL + SAVE_STATE_CR3 + 4
    || GUEST_CR3_VALUE + 0x1000 <= a < GUEST_CR3_VALUE + 0x2000
    || NESTED_DIR_FINAL + 0x1000 <= a < NESTED_DIR_FINAL + 0x2000
  }

  ghost predicate SameTables(m: Mem, m': Mem) {
    forall a: Dword {:trigger m[a]} {:trigger m'[a]} :: TableByteAddress(a) ==> m'[a] == m[a]
  }

  lemma TablesKept(m: Mem, m': Mem)
    requires TablesOk(m) && SameTables(m, m')
    ensures TablesOk(m')
  {
    forall i: int | 0 <= i < 0x400 ensures Frame(m', GUEST_CR3_VALUE, i) == 0x1000 * i {
      assert Frame(m, GUEST_CR3_VALUE, i) == 0x1000 * i;
      assert ReadD(m', GUEST_CR3_VALUE + 0x1000 + 4 * i) ==
             ReadD(m, GUEST_CR3_VALUE + 0x1000 + 4 * i) by { hide Frame; }
    }
    forall i: int | 0 <= i < 0x400 ensures Frame(m', NESTED_DIR_FINAL, i) == 0x1000 * i {
      assert Frame(m, NESTED_DIR_FINAL, i) == 0x1000 * i;
      assert ReadD(m', NESTED_DIR_FINAL + 0x1000 + 4 * i) ==
             ReadD(m, NESTED_DIR_FINAL + 0x1000 + 4 * i) by { hide Frame; }
    }
  }

  // ----- guest-mode stores and loads -----

  datatype Width = Bits8 | Bits16 | Bits32

  function Size(w: Width): Dword {
    match w case Bits8 => 1 case Bits16 => 2 case Bits32 => 4
  }

  /** How many values a width holds. */
  function Values(w: Width): int {
    match w case Bits8 => 0x100 case Bits16 => 0x1_0000 case Bits32 => MEM_SIZE
  }

  /** A store of the low bytes of value. */
  datatype Store = Store(width: Width, a: Dword, value: Dword)

  function Write(m: Mem, w: Width, a: Dword, v: Dword): Mem {
    match w
    case Bits8 => WriteB(m, a, v % 0x100)
    case Bits16 => WriteW(m, a, v % 0x1_0000)
    case Bits32 => WriteD(m, a, v)
  }

  function Read(m: Mem, w: Width, a: Dword): Dword {
    match w case Bits8 => ReadB(m, a) case Bits16 => ReadW(m, a) case Bits32 => ReadD(m, a)
  }

  /** SetMem*(..., true) and GetMem*(..., true). */
  function GuestStore(m: Mem, s: Store): Mem {
    Write(m, s.width, TranslateGuestPhysicalAddress(m, s.a), s.value)
  }

  function GuestLoad(m: Mem, w: Width, a: Dword): Dword {
    Read(m, w, TranslateGuestPhysicalAddress(m, a))
  }

  function GuestStores(m: Mem, t: seq<Store>): Mem
    decreases t
  {
    hide TranslateGuestPhysicalAddress, Write;
    if t == [] then m else GuestStore(GuestStores(m, t[..|t| - 1]), t[|t| - 1])
  }

  /** Byte k of a value. */
  function ByteOf(v: Dword, k: int): Byte {
    if k == 0 then v % 0x100
    else if k == 1 then v / 0x100 % 0x100
    else if k == 2 then v / 0x1_0000 % 0x100
    else v / 0x100_0000
  }

  /** The byte a flat memory holds at a after the stores of t: the one the last store covering
      a put there, or the initial one. */
  function LastByte(m: Mem, t: seq<Store>, a: Dword): Byte
    decreases t
  {
    if t == [] then m[a] else
    var s := t[|t| - 1];
    if s.a <= a < s.a + Size(s.width) then ByteOf(s.value, a - s.a) else LastByte(m, t[..|t| - 1], a)
  }

  /** Inside the guest's 4 MiB, and clear of the page table the lookup uses. */
  ghost predicate Allowed(s: Store) {
    && s.a + Size(s.width) <= GUEST_MEMORY_SIZE
    && (s.a + Size(s.width) <= GUEST_CR3_VALUE + 0x1000 || GUEST_CR3_VALUE + 0x2000 <= s.a)
  }

  lemma WriteBytes(m: Mem, w: Width, a: Dword, v: Dword, b: Dword)
    requires a + Size(w) <= MEM_SIZE
    ensures Write(m, w, a, v)[b] == if a <= b < a + Size(w) then ByteOf(v, b - a) else m[b]
  {
    LowWordBytes(v);
  }

  lemma LowWordBytes(v: Dword)
    ensures v % 0x1_0000 / 0x100 == v / 0x100 % 0x100 && v % 0x1_0000 % 0x100 == v % 0x100
  {
    var w: int, b: int := v / 0x100, v % 0x100;
    var h: int, c: int := w / 0x100, w % 0x100;
    assert v == h * 0x1_0000 + (c * 0x100 + b);
    assert v % 0x1_0000 == c * 0x100 + b;
  }

  lemma StoreEffect(m: Mem, s: Store, a: Dword)
    requires TablesOk(m) && Allowed(s)
    ensures TablesOk(GuestStore(m, s))
    ensures GuestStore(m, s)[a] == if s.a <= a < s.a + Size(s.width) then ByteOf(s.value, a - s.a) else m[a]
  {
    hide TablesOk, TranslateGuestPhysicalAddress, Write, ByteOf;
    TranslateIsIdentity(m, s.a);
    forall b: Dword
      ensures GuestStore(m, s)[b] == if s.a <= b < s.a + Size(s.width) then ByteOf(s.value, b - s.a) else m[b]
    {
      WriteBytes(m, s.width, s.a, s.value, b);
    }
    TablesKept(m, GuestStore(m, s));
  }

  ghost predicate AllAllowed(t: seq<Store>) {
    forall i: nat :: i < |t| ==> Allowed(t[i])
  }

  /** Stores outside the page table leave the tables as they are. */
  lemma {:induction false} StoresKeepTables(m: Mem, t: seq<Store>)
    requires TablesOk(m) && AllAllowed(t)
    ensures TablesOk(GuestStores(m, t))
    decreases t
  {
    hide TablesOk, GuestStore, Allowed;
    if t != [] {
      StoresKeepTables(m, t[..|t| - 1]);
      StoreEffect(GuestStores(m, t[..|t| - 1]), t[|t| - 1], 0);
    }
  }

  /** Over any sequence of allowed stores, of any width and alignment, guest memory is the flat
      memory: every byte is the last one stored there, and everything outside the stores, which
      takes in the VMCB and the nested tables, is as it was. */
  lemma {:induction false} GuestStoresAreFlat(m: Mem, t: seq<Store>, a: Dword)
    requires TablesOk(m) && AllAllowed(t)
    ensures GuestStores(m, t)[a] == LastByte(m, t, a)
    decreases t
  {
    hide TablesOk, GuestStore, ByteOf, Allowed;
    if t != [] {
      var t' := t[..|t| - 1];
      StoresKeepTables(m, t');
      GuestStoresAreFlat(m, t', a);
      StoreEffect(GuestStores(m, t'), t[|t| - 1], a);
    }
  }

  /** Loads return what was last stored, byte by byte, also across page boundaries: byte k of the
      value loaded is the last one stored at a + k, and there are no bytes beyond the width. */
  lemma LoadsReturnLastStores(m: Mem, t: seq<Store>, w: Width, a: Dword, k: Dword)
    requires TablesOk(m) && AllAllowed(t) && a + Size(w) <= GUEST_MEMORY_SIZE && k < Size(w)
    ensures ByteOf(GuestLoad(GuestStores(m, t), w, a), k) == LastByte(m, t, a + k)
    ensures GuestLoad(GuestStores(m, t), w, a) < Values(w)
  {
    hide TablesOk, TranslateGuestPhysicalAddress, LastByte, ByteOf, AllAllowed;
    StoresKeepTables(m, t);
    GuestStoresAreFlat(m, t, a + k);
    TranslateIsIdentity(GuestStores(m, t), a);
    BytesOfRead(GuestStores(m, t), w, a);
  }

  /** The stores change no translation. */
  lemma StoresKeepTranslation(m: Mem, t: seq<Store>, a: Dword)
    requires TablesOk(m) && AllAllowed(t) && a < GUEST_MEMORY_SIZE
    ensures TranslateGuestPhysicalAddress(GuestStores(m, t), a) == TranslateGuestPhysicalAddress(m, a)
  {
    hide TablesOk, TranslateGuestPhysicalAddress, AllAllowed;
    StoresKeepTables(m, t);
    TranslateIsIdentity(m, a);
    TranslateIsIdentity(GuestStores(m, t), a);
  }

  lemma BytesOfRead(m: Mem, w: Width, a: Dword)
    requires a + Size(w) <= MEM_SIZE
    ensures forall k: Dword {:trigger ByteOf(Read(m, w, a), k)} :: k < Size(w) ==> ByteOf(Read(m, w, a), k) == m[a + k]
    ensures Read(m, w, a) < Values(w)
  {
    hide ByteOf;
    var b0: Byte, b1: Byte, b2: Byte, b3: Byte := m[a], m[Add(a, 1)], m[Add(a, 2)], m[Add(a, 3)];
    match w
    case Bits8 => BytesOfSum(b0, 0, 0, 0);
    case Bits16 => BytesOfSum(b0, b1, 0, 0);
    case Bits32 => BytesOfSum(b0, b1, b2, b3);
  }

  lemma BytesOfSum(b0: Byte, b1: Byte, b2: Byte, b3: Byte)
    ensures var v := b0 + 0x100 * b1 + 0x1_0000 * b2 + 0x100_0000 * b3;
            ByteOf(v, 0) == b0 && ByteOf(v, 1) == b1 && ByteOf(v, 2) == b2 && ByteOf(v, 3) == b3
  {
    var v: int := b0 + 0x100 * b1 + 0x1_0000 * b2 + 0x100_0000 * b3;
    assert v / 0x100 == b1 + 0x100 * b2 + 0x1_0000 * b3;
    assert v / 0x1_0000 == b2 + 0x100 * b3;
    assert v / 0x100_0000 == b3;
  }
}
