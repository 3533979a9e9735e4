/** bitarray_UpdateBit: a bitmap updated one bit at a time, read as a set. */
module BitArray {
  import opened Memory
  import opened Bits

  /** Bit n of the map: bit n % 8 of byte n / 8, the layout of the I/O permission map (APM
      Volume 2, section 15.10.1). */
  predicate IsSet(bitmap: seq<Byte>, n: nat)
    requires n < 8 * |bitmap|
  {
    Bit(bitmap[n / 8], n % 8)
  }

  function Updated(bitmap: seq<Byte>, n: nat, value: Byte): (r: seq<Byte>)
    requires n < 8 * |bitmap|
    ensures |r| == |bitmap|
  {
    OrStaysInByte(bitmap[n / 8], n % 8, value);
    bitmap[n / 8 := Or(bitmap[n / 8], value % 2 * Pow2(n % 8))]
  }

  lemma OrStaysInByte(x: Byte, k: nat, value: Byte)
    requires k < 8
    ensures Or(x, value % 2 * Pow2(k)) < 0x100
  {
    hide Or;
    assert Pow2(0) == 1 && Pow2(1) == 2 && Pow2(2) == 4 && Pow2(3) == 8;
    assert Pow2(4) == 0x10 && Pow2(5) == 0x20 && Pow2(6) == 0x40 && Pow2(7) == 0x80 && Pow2(8) == 0x100;
    OrSplit(8, 0, x, 0, value % 2 * Pow2(k));
  }

  method UpdateBit(bitmap: array<Byte>, bitNum: nat, value: Byte) returns (theByte: Byte)
    requires bitNum < 8 * bitmap.Length
    modifies bitmap
    ensures bitmap[..] == Updated(old(bitmap[..]), bitNum, value)
    ensures theByte == bitmap[bitNum / 8]
  {
    hide Or, Pow2;
    theByte := bitmap[bitNum / 8];
    OrStaysInByte(theByte, bitNum % 8, value);
    theByte := Or(theByte, value % 2 * Pow2(bitNum % 8));
    bitmap[bitNum / 8] := theByte;
  }

  lemma UpdatedBit(bitmap: seq<Byte>, n: nat, value: Byte, b: nat)
    requires n < 8 * |bitmap| && b < 8 * |bitmap|
    ensures IsSet(Updated(bitmap, n, value), b) <==> IsSet(bitmap, b) || (b == n && value % 2 == 1)
  {
    hide Or, Bit, Pow2;
    BitsOfOr(bitmap[n / 8], value % 2 * Pow2(n % 8), b % 8);
    BitsOfPow2(n % 8, b % 8);
    ZeroHasNoBits(b % 8);
    assert b / 8 == n / 8 && b % 8 == n % 8 <==> b == n;
    if value % 2 == 0 {
      assert value % 2 * Pow2(n % 8) == 0;
    } else {
      assert value % 2 * Pow2(n % 8) == Pow2(n % 8);
    }
  }

  datatype Request = Request(bit: nat, value: Byte)

  ghost predicate InRange(rs: seq<Request>, size: nat) {
    forall i: nat :: i < |rs| ==> rs[i].bit < 8 * size
  }

  function UpdatedAll(bitmap: seq<Byte>, rs: seq<Request>): (r: seq<Byte>)
    requires InRange(rs, |bitmap|)
    ensures |r| == |bitmap|
    decreases rs
  {
    if rs == [] then bitmap else
    var last := rs[|rs| - 1];
    Updated(UpdatedAll(bitmap, rs[..|rs| - 1]), last.bit, last.value)
  }

  ghost predicate Requested(rs: seq<Request>, b: nat) {
    exists i: nat :: i < |rs| && rs[i].bit == b && rs[i].value % 2 == 1
  }

  /** After any sequence of updates the map is the initial set together with the bits requested
      with value 1: bits are only ever added. */
  lemma {:induction false} MapIsUnion(bitmap: seq<Byte>, rs: seq<Request>, b: nat)
    requires InRange(rs, |bitmap|) && b < 8 * |bitmap|
    ensures IsSet(UpdatedAll(bitmap, rs), b) <==> IsSet(bitmap, b) || Requested(rs, b)
    decreases rs
  {
    hide IsSet, Updated;
    if rs != [] {
      var before, last := rs[..|rs| - 1], rs[|rs| - 1];
      MapIsUnion(bitmap, before, b);
      UpdatedBit(UpdatedAll(bitmap, before), last.bit, last.value, b);
      if Requested(before, b) {
        var i: nat :| i < |before| && before[i].bit == b && before[i].value % 2 == 1;
        assert rs[i] == before[i];
      }
      if Requested(rs, b) {
        var i: nat :| i < |rs| && rs[i].bit == b && rs[i].value % 2 == 1;
        assert i < |before| ==> before[i] == rs[i];
      }
    }
  }
}
