/** Bits of numbers and of byte buffers, shared by the WSPR and the FT8-family encoders. */
module Bits {
  import opened Machine

  /** Bit `i` of a value: `(v >> i) & 1`. */
  function Bit(v: nat, i: nat): bit {
    if i == 0 then v % 2 else Bit(v / 2, i - 1)
  }

  lemma ModDouble(v: nat, p: nat)
    requires p > 0
    ensures v % (2 * p) == 2 * (v / 2 % p) + v % 2
  {
    var q, r := v / 2 / p, v / 2 % p;
    assert v / 2 == q * p + r;
    assert 2 * (q * p) == q * (2 * p);
    DivMod(q, 2 * r + v % 2, 2 * p);
  }

  lemma HalveFirst(v: nat, i: nat)
    requires i > 0
    ensures v / Pow2(i) == v / 2 / Pow2(i - 1)
  {
    DivDiv(v, 2, Pow2(i - 1));
  }

  lemma {:induction false} BitShift(v: nat, i: nat, j: nat, q: nat)
    requires q == v / Pow2(i)
    ensures Bit(v, i + j) == Bit(q, j)
    decreases i
  {
    if i == 0 {
      assert Pow2(0) == 1;
      assert q == v;
    } else {
      HalveFirst(v, i);
      BitShift(v / 2, i - 1, j, q);
    }
  }

  /** The low `n` bits of a value, most significant first. */
  function ValueBits(value: nat, n: nat): (bits: seq<bit>)
    ensures |bits| == n
  {
    seq(n, i requires 0 <= i < n => Bit(value, n - 1 - i))
  }

  /** The number a bit string spells, most significant bit first. */
  function BitsValue(bits: seq<bit>): (v: nat)
    ensures v < Pow2(|bits|)
  {
    if bits == [] then 0 else 2 * BitsValue(bits[..|bits| - 1]) + bits[|bits| - 1]
  }

  /** Reading back what was written gives the low `n` bits of the value. */
  lemma {:induction false} BitsValueOfValueBits(value: nat, n: nat)
    ensures BitsValue(ValueBits(value, n)) == value % Pow2(n)
  {
    if n > 0 {
      var bits := ValueBits(value, n);
      assert bits[n - 1] == Bit(value, 0);
      forall i | 0 <= i < n - 1
        ensures bits[i] == ValueBits(value / 2, n - 1)[i]
      {
        assert Bit(value, n - 1 - i) == Bit(value / 2, n - 2 - i);
      }
      assert bits[..n - 1] == ValueBits(value / 2, n - 1);
      BitsValueOfValueBits(value / 2, n - 1);
      ModDouble(value, Pow2(n - 1));
    }
  }

  lemma BitsOfDouble(w: nat, last: bit, n: nat)
    ensures ValueBits(2 * w + last, n + 1) == ValueBits(w, n) + [last]
  {
    var v := 2 * w + last;
    assert v / 2 == w && v % 2 == last;
    forall i | 0 <= i < n
      ensures ValueBits(v, n + 1)[i] == ValueBits(w, n)[i]
    {
      assert Bit(v, n - i) == Bit(w, n - 1 - i);
    }
    assert ValueBits(v, n + 1)[n] == Bit(v, 0);
  }

  lemma {:induction false} ValueBitsOfBitsValue(bits: seq<bit>)
    ensures ValueBits(BitsValue(bits), |bits|) == bits
  {
    if bits != [] {
      var n := |bits| - 1;
      ValueBitsOfBitsValue(bits[..n]);
      BitsOfDouble(BitsValue(bits[..n]), bits[n], n);
    }
  }

  /** A byte buffer as one bit string, most significant bit of each byte first. */
  function AllBits(buf: seq<byte>): (bits: seq<bit>)
    ensures |bits| == 8 * |buf|
  {
    seq(8 * |buf|, k requires 0 <= k < 8 * |buf| => Bit(buf[k / 8], 7 - k % 8))
  }

  lemma BitOfByte(buf: seq<byte>, i: nat, j: nat)
    requires i < |buf| && j < 8
    ensures AllBits(buf)[8 * i + 7 - j] == Bit(buf[i], j)
  {
  }

  /** Eight consecutive bits spell their byte. */
  lemma ByteFromBits(buf: seq<byte>, i: nat)
    requires i < |buf|
    ensures BitsValue(AllBits(buf)[8 * i..8 * i + 8]) == buf[i]
  {
    var bits := AllBits(buf)[8 * i..8 * i + 8];
    forall k | 0 <= k < 8
      ensures bits[k] == ValueBits(buf[i], 8)[k]
    {
      BitOfByte(buf, i, 7 - k);
      hide Bit;
    }
    hide AllBits;
    hide ValueBits;
    hide BitsValue;
    assert bits == ValueBits(buf[i], 8);
    BitsValueOfValueBits(buf[i], 8);
    Pow2Values();
    hide Pow2;
  }

  /** The bit at a place of the buffer. */
  lemma BitAt(buf: seq<byte>, pos: nat)
    requires pos < 8 * |buf|
    ensures AllBits(buf)[pos] == Bit(buf[pos / 8], 7 - pos % 8)
  {
    hide Bit;
  }

  lemma PrefixValue(bits: seq<bit>, i: nat)
    requires i < |bits|
    ensures BitsValue(bits[..i + 1]) == 2 * BitsValue(bits[..i]) + bits[i]
  {
    assert bits[..i + 1][..i] == bits[..i];
  }

  /** Reduction modulo 2^n keeps the low `n` bits. */
  lemma {:induction false} BitOfMod(v: nat, n: nat, j: nat)
    requires j < n
    ensures Bit(v % Pow2(n), j) == Bit(v, j)
    decreases n
  {
    ModDouble(v, Pow2(n - 1));
    var r := v % Pow2(n);
    assert r / 2 == v / 2 % Pow2(n - 1) && r % 2 == v % 2;
    if j > 0 {
      BitOfMod(v / 2, n - 1, j - 1);
    }
  }

  /** The low bits of a value are those of its remainder. */
  lemma ValueBitsOfMod(v: nat, n: nat)
    ensures ValueBits(v % Pow2(n), n) == ValueBits(v, n)
  {
    forall i | 0 <= i < n
      ensures ValueBits(v % Pow2(n), n)[i] == ValueBits(v, n)[i]
    {
      BitOfMod(v, n, n - 1 - i);
    }
  }

  /** The bits of `(v >> i) & (2^n - 1)`. */
  lemma BitOfSlice(v: nat, i: nat, n: nat, j: nat)
    requires j < n
    ensures v / Pow2(i) >= 0 && Bit(v / Pow2(i) % Pow2(n), j) == Bit(v, i + j)
  {
    DivNat(v, Pow2(i));
    BitOfMod(v / Pow2(i), n, j);
    BitShift(v, i, j, v / Pow2(i));
  }

  /** The bits of two parts side by side, the lower one `n` bits wide. */
  lemma BitOfJoined(high: nat, low: nat, n: nat, j: nat)
    requires low < Pow2(n)
    ensures high * Pow2(n) >= 0 && Bit(high * Pow2(n) + low, j) == if j < n then Bit(low, j) else Bit(high, j - n)
  {
    MulNat(high, Pow2(n));
    var v := high * Pow2(n) + low;
    DivMod(high, low, Pow2(n));
    if j < n {
      BitOfMod(v, n, j);
    } else {
      BitShift(v, n, j - n, high);
    }
  }
}
