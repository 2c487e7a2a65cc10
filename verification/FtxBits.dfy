/** Bit-level access to the FT8-family payload buffer (src/modes/ftx.c:9-60). */
module FtxBits {
  import opened Machine
  import opened Bits

  /** `b | (1 << k)` when `v` is 1 and `b & ~(1 << k)` when it is 0. */
  function WithBit(b: nat, k: nat, v: bit): nat {
    if k == 0 then 2 * (b / 2) + v else 2 * WithBit(b / 2, k - 1, v) + b % 2
  }

  /** `s` with the stretch at `pos` overwritten by `t`. */
  function Splice(s: seq<bit>, pos: nat, t: seq<bit>): (r: seq<bit>)
    requires pos + |t| <= |s|
    ensures |r| == |s|
    ensures forall k :: 0 <= k < |s| ==> r[k] == if pos <= k < pos + |t| then t[k - pos] else s[k]
  {
    s[..pos] + t + s[pos + |t|..]
  }

  // ------------------------------------------------------------ bit arithmetic

  /** Writing bit `k` changes that bit alone and stays within the width. */
  lemma {:induction false} WithBitBits(b: nat, k: nat, v: bit, n: nat, j: nat)
    requires k < n && b < Pow2(n)
    ensures WithBit(b, k, v) < Pow2(n)
    ensures Bit(WithBit(b, k, v), j) == if j == k then v else Bit(b, j)
  {
    var r := WithBit(b, k, v);
    if k == 0 {
      assert r / 2 == b / 2;
    } else {
      assert r / 2 == WithBit(b / 2, k - 1, v) && r % 2 == b % 2;
      WithBitBits(b / 2, k - 1, v, n - 1, if j == 0 then 0 else j - 1);
    }
  }

  lemma WithBitByte(b: byte, k: nat, v: bit, j: nat)
    requires k < 8
    ensures WithBit(b, k, v) < 256
    ensures Bit(WithBit(b, k, v), j) == if j == k then v else Bit(b, j)
  {
    Pow2Values();
    WithBitBits(b, k, v, 8, j);
  }

  // ------------------------------------------------------ the three procedures

  method PackBits(buf: array<byte>, bitPos: nat, value: nat, nbits: nat)
    requires bitPos + nbits <= 8 * buf.Length
    modifies buf
    ensures AllBits(buf[..]) == Splice(old(AllBits(buf[..])), bitPos, ValueBits(value, nbits))
  {
    var i := nbits - 1;
    while i >= 0
      invariant -1 <= i < nbits
      invariant forall k :: 0 <= k < 8 * buf.Length ==>
        AllBits(buf[..])[k] == (if bitPos <= k < bitPos + (nbits - 1 - i) then ValueBits(value, nbits)[k - bitPos]
                                else old(AllBits(buf[..]))[k])
    {
      var pos := bitPos + (nbits - 1 - i);
      WriteBit(buf, pos, Bit(value, i));
      i := i - 1;
    }
  }

  /** One step of the two packers: set or clear the bit at `pos`. */
  method WriteBit(buf: array<byte>, pos: nat, v: bit)
    requires pos < 8 * buf.Length
    modifies buf
    ensures forall k :: 0 <= k < 8 * buf.Length ==>
      AllBits(buf[..])[k] == (if k == pos then v else old(AllBits(buf[..]))[k])
  {
    var byteIdx := pos / 8;
    var bitIdx := 7 - pos % 8;
    ghost var was := buf[byteIdx];
    WithBitByte(was, bitIdx, v, 0);
    buf[byteIdx] := WithBit(buf[byteIdx], bitIdx, v);
    forall k | 0 <= k < 8 * buf.Length
      ensures AllBits(buf[..])[k] == if k == pos then v else old(AllBits(buf[..]))[k]
    {
      if k / 8 == byteIdx {
        WithBitByte(was, bitIdx, v, 7 - k % 8);
      }
    }
  }

  /** `v << n` */
  function ShiftLeft(v: nat, n: nat): nat {
    v * Pow2(n)
  }

  lemma HornerShift(v: nat, b: nat, p: nat)
    ensures (2 * v + b) * p == v * (2 * p) + b * p
  {
  }

  lemma ShiftLeftStep(v: nat, b: bit, n: nat)
    requires n > 0
    ensures ShiftLeft(2 * v + b, n - 1) == ShiftLeft(v, n) + if b == 1 then Pow2(n - 1) else 0
  {
    HornerShift(v, b, Pow2(n - 1));
  }

  lemma ShiftLeftEnds(v: nat, n: nat)
    ensures ShiftLeft(v, 0) == v && ShiftLeft(0, n) == 0
  {
  }

  lemma NoBits(bits: seq<bit>)
    ensures BitsValue(bits[..0]) == 0
  {
  }

  method UnpackBits(buf: array<byte>, bitPos: nat, nbits: nat) returns (value: nat)
    requires bitPos + nbits <= 8 * buf.Length
    ensures value == BitsValue(AllBits(buf[..])[bitPos..bitPos + nbits])
  {
    hide Pow2;
    hide ShiftLeft;
    hide BitsValue;
    hide AllBits;
    hide Bit;
    value := 0;
    ghost var bits := AllBits(buf[..])[bitPos..bitPos + nbits];
    ShiftLeftEnds(0, nbits);
    NoBits(bits);
    for i := 0 to nbits
      invariant value == ShiftLeft(BitsValue(bits[..i]), nbits - i)
    {
      var pos := bitPos + i;
      PrefixValue(bits, i);
      BitAt(buf[..], pos);
      ShiftLeftStep(BitsValue(bits[..i]), bits[i], nbits - i);
      if Bit(buf[pos / 8], 7 - pos % 8) == 1 {
        value := value + Pow2(nbits - 1 - i);
      }
    }
    assert bits[..nbits] == bits;
    ShiftLeftEnds(value, 0);
    ShiftLeftEnds(BitsValue(bits), 0);
  }

  method PackBytes(buf: array<byte>, bitPos: nat, src: seq<byte>, nbits: nat)
    requires bitPos + nbits <= 8 * buf.Length && nbits <= 8 * |src|
    modifies buf
    ensures AllBits(buf[..]) == Splice(old(AllBits(buf[..])), bitPos, AllBits(src)[..nbits])
  {
    for i := 0 to nbits
      invariant forall k :: 0 <= k < 8 * buf.Length ==>
        AllBits(buf[..])[k] == (if bitPos <= k < bitPos + i then AllBits(src)[k - bitPos]
                                else old(AllBits(buf[..]))[k])
    {
      WriteBit(buf, bitPos + i, Bit(src[i / 8], 7 - i % 8));
    }
  }
}
