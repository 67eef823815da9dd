// `Bitfield` of crates/piece/src/lib.rs: most significant bit first, as `BitVec<u8, Msb0>` keeps it, and the
// bytes that `peer_loop` of crates/daemon/src/engine.rs packs for the bitfield message.
module Bitfields {
  import opened Prelude
  import Wire

  // Bit `m` of a number, bit 0 being the least significant.
  predicate Bit(x: nat, m: nat) {
    if m == 0 then x % 2 == 1 else Bit(x / 2, m - 1)
  }

  // x | 1 << m
  function OrBit(x: nat, m: nat): nat {
    if m > 0 then 2 * OrBit(x / 2, m - 1) + x % 2
    else if x % 2 == 1 then x else x + 1
  }

  function Pow2(n: nat): nat { if n == 0 then 1 else 2 * Pow2(n - 1) }

  lemma {:induction false} OrSetsOneBit(x: nat, m: nat, j: nat)
    ensures Bit(OrBit(x, m), j) <==> j == m || Bit(x, j)
  {
    if m > 0 {
      assert OrBit(x, m) / 2 == OrBit(x / 2, m - 1);
      if j > 0 {
        OrSetsOneBit(x / 2, m - 1, j - 1);
      }
    } else {
      assert OrBit(x, m) / 2 == x / 2;
    }
  }

  lemma {:induction false} OrFits(x: nat, m: nat, n: nat)
    requires x < Pow2(n) && m < n
    ensures OrBit(x, m) < Pow2(n)
  {
    var half := Pow2(n - 1);
    assert Pow2(n) == 2 * half;
    if m > 0 {
      OrFits(x / 2, m - 1, n - 1);
      assert OrBit(x / 2, m - 1) + 1 <= half;
    }
  }

  // A number below 2^n is determined by its first n bits.
  lemma {:induction false} BitsDetermine(x: nat, y: nat, n: nat)
    requires x < Pow2(n) && y < Pow2(n)
    requires forall m :: 0 <= m < n ==> Bit(x, m) == Bit(y, m)
    ensures x == y
  {
    if n > 0 {
      forall m | 0 <= m < n - 1 ensures Bit(x / 2, m) == Bit(y / 2, m) {
        assert Bit(x, m + 1) == Bit(y, m + 1);
      }
      BitsDetermine(x / 2, y / 2, n - 1);
      assert Bit(x, 0) == Bit(y, 0);
    }
  }

  lemma BytesHaveEightBits()
    ensures Pow2(8) == 256
  {
    assert Pow2(4) == 16;
  }

  // Bit `i` of a byte sequence.
  predicate BitOf(b: bytes, i: nat)
    requires i < 8 * |b|
  {
    Bit(b[i / 8], 7 - i % 8)
  }

  // `b` is `have`, eight pieces to a byte, with zero spare bits.
  predicate Packs(b: bytes, have: seq<bool>) {
    && |b| == CeilDiv(|have|, 8)
    && forall i :: 0 <= i < 8 * |b| ==> (BitOf(b, i) <==> i < |have| && have[i])
  }

  // `Bitfield::from_bytes`: truncating to more bits than there are keeps them all.
  function BitsOf(b: bytes, bitLen: nat): (bits: seq<bool>)
    ensures |bits| == Min(8 * |b|, bitLen)
  {
    seq(Min(8 * |b|, bitLen), i requires 0 <= i < 8 * |b| => BitOf(b, i))
  }

  // `BitVec::get`
  function GetBit(bits: seq<bool>, index: nat): Option<bool> {
    if index < |bits| then Some(bits[index]) else None
  }

  class Bitfield {
    var bits: seq<bool>

    constructor (len: nat)
      ensures bits == seq(len, _ => false)
    {
      bits := seq(len, _ => false);
    }

    constructor FromBytes(b: bytes, bitLen: nat)
      ensures bits == BitsOf(b, bitLen)
    {
      bits := BitsOf(b, bitLen);
    }

    function Get(index: nat): (r: Option<bool>)
      reads this
    {
      GetBit(bits, index)
    }

    // An index beyond the end is ignored.
    method Set(index: nat, value: bool)
      modifies this
      ensures bits == SetBit(old(bits), index, value)
    {
      if index < |bits| {
        bits := bits[index := value];
      }
    }
  }

  function SetBit(bits: seq<bool>, index: nat, value: bool): (r: seq<bool>)
    ensures |r| == |bits|
    ensures forall i: nat :: GetBit(r, i) == if i == index && i < |bits| then Some(value) else GetBit(bits, i)
  {
    if index < |bits| then bits[index := value] else bits
  }

  // The loop of `peer_loop`.
  method PackBits(have: seq<bool>) returns (b: bytes)
    ensures Packs(b, have)
  {
    hide Bit, OrBit;
    CeilDivBounds(|have|, 8);
    var a := new byte[CeilDiv(|have|, 8)](_ => 0);
    forall j | 0 <= j < 8 * a.Length ensures !BitOf(a[..], j) {
      ZeroHasNoBits(7 - j % 8);
    }
    for i := 0 to |have|
      invariant forall j :: 0 <= j < 8 * a.Length ==> (BitOf(a[..], j) <==> j < i && have[j])
    {
      if have[i] {
        ghost var before := a[..];
        BytesHaveEightBits();
        OrFits(a[i / 8], 7 - i % 8, 8);
        a[i / 8] := OrBit(a[i / 8], 7 - i % 8);
        SetsOneBitOf(before, i, a[..]);
      }
    }
    b := a[..];
  }

  lemma {:induction false} ZeroHasNoBits(m: nat)
    ensures !Bit(0, m)
  {
    if m > 0 {
      ZeroHasNoBits(m - 1);
    }
  }

  lemma SetsOneBitOf(before: bytes, i: nat, after: bytes)
    requires i < 8 * |before| && |after| == |before|
    requires after[i / 8] == OrBit(before[i / 8], 7 - i % 8)
    requires forall k :: 0 <= k < |before| && k != i / 8 ==> after[k] == before[k]
    ensures forall j :: 0 <= j < 8 * |before| ==> (BitOf(after, j) <==> j == i || BitOf(before, j))
  {
    hide Bit, OrBit;
    forall j | 0 <= j < 8 * |before| ensures BitOf(after, j) <==> j == i || BitOf(before, j) {
      if j / 8 == i / 8 {
        OrSetsOneBit(before[i / 8], 7 - i % 8, 7 - j % 8);
      }
    }
  }

  // The packing is unique, so the message is determined by `have`.
  lemma PackedBytesAreUnique(a: bytes, b: bytes, have: seq<bool>)
    requires Packs(a, have) && Packs(b, have)
    ensures a == b
  {
    hide Bit;
    BytesHaveEightBits();
    forall k | 0 <= k < |a| ensures a[k] == b[k] {
      forall m | 0 <= m < 8 ensures Bit(a[k], m) == Bit(b[k], m) {
        var i := 8 * k + (7 - m);
        assert i / 8 == k && i % 8 == 7 - m;
        assert BitOf(a, i) == BitOf(b, i);
      }
      BitsDetermine(a[k], b[k], 8);
    }
  }

  // --- the bytes themselves ---

  function Weight(x: nat, m: nat): nat { if Bit(x, m) then 1 else 0 }

  function BitSum(x: nat, n: nat): nat {
    if n == 0 then 0 else Weight(x, n - 1) * Pow2(n - 1) + BitSum(x, n - 1)
  }

  lemma {:induction false} BitSumHalves(x: nat, n: nat)
    ensures BitSum(x, n + 1) == 2 * BitSum(x / 2, n) + Weight(x, 0)
  {
    if n > 0 {
      BitSumHalves(x, n - 1);
      assert Weight(x, n) == Weight(x / 2, n - 1);
    }
  }

  lemma {:induction false} NumberIsItsBits(x: nat, n: nat)
    requires x < Pow2(n)
    ensures x == BitSum(x, n)
  {
    if n > 0 {
      NumberIsItsBits(x / 2, n - 1);
      BitSumHalves(x, n - 1);
    }
  }

  lemma ByteIsItsBits(x: byte)
    ensures x == 128 * Weight(x, 7) + 64 * Weight(x, 6) + 32 * Weight(x, 5) + 16 * Weight(x, 4)
                 + 8 * Weight(x, 3) + 4 * Weight(x, 2) + 2 * Weight(x, 1) + Weight(x, 0)
  {
    hide Weight;
    BytesHaveEightBits();
    NumberIsItsBits(x, 8);
    assert Pow2(0) == 1 && Pow2(1) == 2 && BitSum(x, 1) == Weight(x, 0);
    assert Pow2(2) == 4 && Pow2(4) == 16 && Pow2(5) == 32 && Pow2(6) == 64;
    assert BitSum(x, 2) == 2 * Weight(x, 1) + Weight(x, 0);
    assert BitSum(x, 4) == 8 * Weight(x, 3) + 4 * Weight(x, 2) + BitSum(x, 2);
    assert BitSum(x, 6) == 32 * Weight(x, 5) + 16 * Weight(x, 4) + BitSum(x, 4);
    assert BitSum(x, 8) == 128 * Weight(x, 7) + 64 * Weight(x, 6) + BitSum(x, 6);
  }

  function Flag(have: seq<bool>, i: nat): nat { if i < |have| && have[i] then 1 else 0 }

  // Eight pieces make a byte, the first of them counting 128 and the last 1; past the last piece there are zeros.
  lemma PackedByteIs(b: bytes, have: seq<bool>, k: nat)
    requires Packs(b, have) && k < |b|
    ensures b[k] == 128 * Flag(have, 8 * k) + 64 * Flag(have, 8 * k + 1) + 32 * Flag(have, 8 * k + 2)
                    + 16 * Flag(have, 8 * k + 3) + 8 * Flag(have, 8 * k + 4) + 4 * Flag(have, 8 * k + 5)
                    + 2 * Flag(have, 8 * k + 6) + Flag(have, 8 * k + 7)
    ensures 8 * (|b| - 1) < |have| <= 8 * |b|
  {
    hide Bit;
    ByteIsItsBits(b[k]);
    CeilDivBounds(|have|, 8);
    forall i | 8 * k <= i < 8 * k + 8 ensures Flag(have, i) == Weight(b[k], 7 - (i - 8 * k)) {
      assert i / 8 == k && i % 8 == i - 8 * k;
      assert BitOf(b, i) <==> i < |have| && have[i];
    }
  }

  // A receiver that knows the number of pieces reads `have` back, and nothing beyond it.
  lemma UnpackPacked(b: bytes, have: seq<bool>)
    requires Packs(b, have)
    ensures BitsOf(b, |have|) == have
    ensures forall i: nat :: GetBit(BitsOf(b, |have|), i) == if i < |have| then Some(have[i]) else None
  {
    hide Bit;
    CeilDivBounds(|have|, 8);
    assert forall i :: 0 <= i < |have| ==> BitsOf(b, |have|)[i] == BitOf(b, i);
  }

  // Packing undoes unpacking exactly when no byte is left over and the spare bits are zero; a message too short
  // for the number of pieces is kept as it is.
  lemma RepackExactly(b: bytes, n: nat)
    ensures Packs(b, BitsOf(b, n)) <==>
              || 8 * |b| <= n
              || (|b| == CeilDiv(n, 8) && forall i :: n <= i < 8 * |b| ==> !BitOf(b, i))
  {
    hide Bit;
    var bits := BitsOf(b, n);
    assert forall i :: 0 <= i < |bits| ==> bits[i] == BitOf(b, i);
    if 8 * |b| <= n {
      assert CeilDiv(8 * |b|, 8) == |b|;
    } else {
      assert |bits| == n;
    }
  }

  // From one client's `have` to the other's view of it, through the bitfield message.
  lemma BitfieldOverTheWire(b: bytes, have: seq<bool>, t: bytes)
    requires Packs(b, have) && 1 + |b| < U32
    ensures var m := Wire.Message.Bitfield(b);
            && Wire.Read(Wire.Frame(m) + t) == Ok((m, |Wire.Frame(m)|))
            && Wire.Read(Wire.Frame(m) + t).value.0.Bitfield?
            && BitsOf(Wire.Read(Wire.Frame(m) + t).value.0.bits, |have|) == have
  {
    Wire.RoundTrip(Wire.Message.Bitfield(b), t);
    UnpackPacked(b, have);
  }
}
