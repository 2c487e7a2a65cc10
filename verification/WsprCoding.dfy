/** The WSPR channel coding: rate-1/2 convolutional code, interleaver and sync merge
    (src/modes/encoders/wspr.c). */
module WsprCoding {
  import opened Machine
  import opened Bits

  const SYMBOL_COUNT: nat := 162
  const MSG_BYTES: nat := 11
  const CODED_BITS: nat := 81
  const ROUNDS: nat := 256
  const POLY_A: nat := 0xF2D05351
  const POLY_B: nat := 0xE4613C47

  const SYNC_VECTOR: string :=
    "11000000100011100010"
    + "01011110000000100101"
    + "00000010110011010001"
    + "10100001101010101001"
    + "00101100011010100010"
    + "00001001001110110011"
    + "01000111000001010011"
    + "00000001101011000110"
    + "00"

  function Sync(i: nat): bit
    requires i < SYMBOL_COUNT
  {
    if SYNC_VECTOR[i] == '1' then 1 else 0
  }

  /** Where the ones of the synchronisation vector are, in rows of twenty. */
  predicate SyncOne(i: nat) {
    match i / 20
    case 0 => i % 20 in {0, 1, 8, 12, 13, 14, 18}
    case 1 => i % 20 in {1, 3, 4, 5, 6, 14, 17, 19}
    case 2 => i % 20 in {6, 8, 9, 12, 13, 15, 19}
    case 3 => i % 20 in {0, 2, 7, 8, 10, 12, 14, 16, 19}
    case 4 => i % 20 in {2, 4, 5, 9, 10, 12, 14, 18}
    case 5 => i % 20 in {4, 7, 10, 11, 12, 14, 15, 18, 19}
    case 6 => i % 20 in {1, 5, 6, 7, 13, 15, 18, 19}
    case 7 => i % 20 in {7, 8, 10, 12, 13, 17, 18}
    case _ => false
  }

  lemma SyncRow0(i: nat)
    requires 0 <= i < 20
    ensures Sync(i) == 1 <==> SyncOne(i)
  {
  }

  lemma SyncRow1(i: nat)
    requires 20 <= i < 40
    ensures Sync(i) == 1 <==> SyncOne(i)
  {
  }

  lemma SyncRow2(i: nat)
    requires 40 <= i < 60
    ensures Sync(i) == 1 <==> SyncOne(i)
  {
  }

  lemma SyncRow3(i: nat)
    requires 60 <= i < 80
    ensures Sync(i) == 1 <==> SyncOne(i)
  {
  }

  lemma SyncRow4(i: nat)
    requires 80 <= i < 100
    ensures Sync(i) == 1 <==> SyncOne(i)
  {
  }

  lemma SyncRow5(i: nat)
    requires 100 <= i < 120
    ensures Sync(i) == 1 <==> SyncOne(i)
  {
  }

  lemma SyncRow6(i: nat)
    requires 120 <= i < 140
    ensures Sync(i) == 1 <==> SyncOne(i)
  {
  }

  lemma SyncRow7(i: nat)
    requires 140 <= i < 160
    ensures Sync(i) == 1 <==> SyncOne(i)
  {
  }

  lemma SyncRow8(i: nat)
    requires 160 <= i < 162
    ensures Sync(i) == 1 <==> SyncOne(i)
  {
  }

  lemma SyncIs(i: nat)
    requires i < SYMBOL_COUNT
    ensures Sync(i) == 1 <==> SyncOne(i)
  {
    hide Sync;
    hide SyncOne;
    if i < 20 {
      SyncRow0(i);
    } else if i < 40 {
      SyncRow1(i);
    } else if i < 60 {
      SyncRow2(i);
    } else if i < 80 {
      SyncRow3(i);
    } else if i < 100 {
      SyncRow4(i);
    } else if i < 120 {
      SyncRow5(i);
    } else if i < 140 {
      SyncRow6(i);
    } else if i < 160 {
      SyncRow7(i);
    } else if i < 162 {
      SyncRow8(i);
    }
  }

  // ------------------------------------------------- 32-bit words and parity

  /** A `uint32_t` as its 32 bits, least significant first. */
  type Word = w: seq<bit> | |w| == 32 witness Repeat(0 as bit, 32)

  function WordOf(n: nat): (w: Word) {
    seq(32, k requires k >= 0 => Bit(n, k))
  }

  function XorBits(a: seq<bit>, b: seq<bit>): (c: seq<bit>)
    requires |a| == |b|
    ensures |c| == |a|
    ensures forall k :: 0 <= k < |a| ==> c[k] == Xor(a[k], b[k])
  {
    seq(|a|, k requires 0 <= k < |a| => Xor(a[k], b[k]))
  }

  function And(a: Word, b: Word): (c: Word) {
    seq(32, k requires 0 <= k < 32 => if a[k] == 1 then b[k] else 0)
  }

  function ShiftRight(w: Word, n: nat): Word
    requires n <= 32
  {
    seq(32, k requires 0 <= k < 32 => if k + n < 32 then w[k + n] else 0)
  }

  /** `(w << 1) | b` */
  function ShiftIn(w: Word, b: bit): Word {
    seq(32, k requires 0 <= k < 32 => if k == 0 then b else w[k - 1])
  }

  /** `v ^ (v >> n)` */
  function Fold(v: Word, n: nat): Word
    requires n <= 32
  {
    XorBits(v, ShiftRight(v, n))
  }

  /** `v ^= v >> n`, then with half of `n`, and so on down to 1. */
  function FoldDown(v: Word, n: nat): Word
    requires n <= 32
    decreases n
  {
    if n == 0 then v else FoldDown(Fold(v, n), n / 2)
  }

  /** The folding parity of the firmware: folds by 16, 8, 4, 2 and 1. */
  function Parity(v: Word): bit {
    FoldDown(v, |v| / 2)[0]
  }

  function XorAll(s: seq<bit>): bit {
    if s == [] then 0 else Xor(s[0], XorAll(s[1..]))
  }

  lemma {:induction false} XorAllLinear(a: seq<bit>, b: seq<bit>)
    requires |a| == |b|
    ensures XorAll(XorBits(a, b)) == Xor(XorAll(a), XorAll(b))
  {
    if a != [] {
      assert XorBits(a, b)[1..] == XorBits(a[1..], b[1..]);
      XorAllLinear(a[1..], b[1..]);
    }
  }

  lemma {:induction false} XorAllConcat(a: seq<bit>, b: seq<bit>)
    ensures XorAll(a + b) == Xor(XorAll(a), XorAll(b))
  {
    if a == [] {
      assert a + b == b;
    } else {
      assert (a + b)[1..] == a[1..] + b;
      XorAllConcat(a[1..], b);
    }
  }

  /** Folding by `n` halves the number of bits that carry the parity. */
  lemma FoldHalves(v: Word, n: nat)
    requires n <= 16
    ensures XorAll(Fold(v, n)[..n]) == XorAll(v[..2 * n])
  {
    assert Fold(v, n)[..n] == XorBits(v[..n], v[n..2 * n]);
    XorAllLinear(v[..n], v[n..2 * n]);
    assert v[..2 * n] == v[..n] + v[n..2 * n];
    XorAllConcat(v[..n], v[n..2 * n]);
  }

  /** Folds by a power of two and all the smaller ones gather the low bits' XOR into bit 0. */
  lemma {:induction false} FoldDownGathers(v: Word, k: nat)
    requires k <= 4
    ensures Pow2(k) <= 16 && FoldDown(v, Pow2(k))[0] == XorAll(v[..2 * Pow2(k)])
    decreases k
  {
    hide Fold;
    var n := Pow2(k);
    assert n <= 16 by {
      Pow2Monotone(k, 4);
      assert Pow2(4) == 16;
    }
    var w := Fold(v, n);
    FoldHalves(v, n);
    assert FoldDown(v, n) == FoldDown(w, n / 2);
    if k > 0 {
      FoldDownGathers(w, k - 1);
    } else {
      assert FoldDown(w, 0) == w;
      assert w[..1] == [w[0]];
      assert XorAll([w[0]]) == w[0];
    }
  }

  /** The five folds compute the XOR of all 32 bits. */
  lemma ParityIsXorOfAllBits(v: Word)
    ensures Parity(v) == XorAll(v)
  {
    assert Pow2(4) == 16;
    hide FoldDown;
    hide XorAll;
    FoldDownGathers(v, 4);
    assert v[..32] == v;
  }

  // ------------------------------------------------------ convolutional code

  /** The shift register after the first `n` bits of the stream. */
  function Register(bits: seq<bit>, n: nat): Word
    requires n <= |bits|
  {
    if n == 0 then Repeat(0 as bit, 32) else ShiftIn(Register(bits, n - 1), bits[n - 1])
  }

  /** One output bit: the parity of the register under a generator mask. */
  function Tap(reg: Word, poly: nat): bit {
    Parity(And(reg, WordOf(poly)))
  }

  function Generator(k: nat): nat {
    if k % 2 == 0 then POLY_A else POLY_B
  }

  /** The coded stream: two output bits for every input bit, for streams of any length. */
  function Convolve(bits: seq<bit>): (out: seq<bit>)
    ensures |out| == 2 * |bits|
  {
    seq(2 * |bits|, k requires 0 <= k < 2 * |bits| => Tap(Register(bits, k / 2 + 1), Generator(k)))
  }

  lemma ConvolveBit(bits: seq<bit>, k: nat)
    requires k < 2 * |bits|
    ensures Convolve(bits)[k] == Tap(Register(bits, k / 2 + 1), Generator(k))
  {
  }

  /** The register holds the last 32 bits, newest first. */
  lemma {:induction false} RegisterWindow(bits: seq<bit>, n: nat, k: nat)
    requires n <= |bits| && k < 32
    ensures Register(bits, n)[k] == if k < n then bits[n - 1 - k] else 0
  {
    if n > 0 && k > 0 {
      RegisterWindow(bits, n - 1, k - 1);
    }
  }

  // ------------------------------------------------- the code by its delays

  /** The XOR of the bits of a stream that lie the given delays back. */
  function Delayed(bits: seq<bit>, i: nat, delays: seq<nat>): bit
    requires i < |bits|
  {
    if delays == [] then 0
    else Xor(if delays[0] <= i then bits[i - delays[0]] else 0, Delayed(bits, i, delays[1..]))
  }

  /** The bits that a list of places picks. */
  function Picked(s: seq<bit>, places: seq<nat>, from: nat): bit {
    if places == [] then 0
    else Xor(if from <= places[0] < from + |s| then s[places[0] - from] else 0, Picked(s, places[1..], from))
  }

  predicate Ascending(places: seq<nat>, from: nat, to: nat) {
    (forall i :: 0 <= i < |places| ==> from <= places[i] < to) &&
    (forall i, j :: 0 <= i < j < |places| ==> places[i] < places[j])
  }

  lemma {:induction false} PickedLater(s: seq<bit>, places: seq<nat>, from: nat)
    requires s != [] && Ascending(places, from + 1, from + |s|)
    ensures Picked(s, places, from) == Picked(s[1..], places, from + 1)
    decreases |places|
  {
    if places != [] {
      PickedLater(s, places[1..], from);
    }
  }

  /** When all other bits are zero, the XOR of a word is the XOR of those picked. */
  lemma {:induction false} XorAllPicked(s: seq<bit>, places: seq<nat>, from: nat)
    requires Ascending(places, from, from + |s|)
    requires forall k :: 0 <= k < |s| && from + k !in places ==> s[k] == 0
    ensures XorAll(s) == Picked(s, places, from)
    decreases |s|
  {
    if s != [] {
      var first := places != [] && places[0] == from;
      var later := if first then places[1..] else places;
      assert !first ==> from !in places;
      forall k | 0 <= k < |s| - 1 && from + 1 + k !in later ensures s[1..][k] == 0 {
        assert first ==> places == [from] + later;
        assert from + (k + 1) !in places;
      }
      XorAllPicked(s[1..], later, from + 1);
      PickedLater(s, later, from);
    }
  }

  lemma {:induction false} PickedRegister(reg: Word, bits: seq<bit>, i: nat, mask: Word, places: seq<nat>)
    requires i < |bits| && reg == Register(bits, i + 1) && Ascending(places, 0, 32)
    requires forall k :: 0 <= k < |places| ==> mask[places[k]] == 1
    ensures Picked(And(reg, mask), places, 0) == Delayed(bits, i, places)
    decreases |places|
  {
    if places != [] {
      RegisterWindow(bits, i + 1, places[0]);
      PickedRegister(reg, bits, i, mask, places[1..]);
    }
  }

  /** A generator whose mask has ones at these places taps the stream at these delays. */
  lemma TapDelays(bits: seq<bit>, i: nat, poly: nat, places: seq<nat>)
    requires i < |bits| && Ascending(places, 0, 32)
    requires forall k :: 0 <= k < 32 ==> (WordOf(poly)[k] == 1 <==> k in places)
    ensures Tap(Register(bits, i + 1), poly) == Delayed(bits, i, places)
  {
    var reg, mask := Register(bits, i + 1), WordOf(poly);
    hide Register;
    hide Parity;
    hide WordOf;
    ParityIsXorOfAllBits(And(reg, mask));
    XorAllPicked(And(reg, mask), places, 0);
    PickedRegister(reg, bits, i, mask, places);
  }

  lemma BitStep(n: nat, q: nat, b: bit)
    requires n == 2 * q + b
    ensures Bit(n, 0) == b && forall k: nat :: k > 0 ==> Bit(n, k) == Bit(q, k - 1)
  {
  }

  /** The bits of a byte that is spelled out, highest first. */
  lemma EightBits(n: byte, b7: bit, b6: bit, b5: bit, b4: bit, b3: bit, b2: bit, b1: bit, b0: bit)
    requires var q4: nat := 8 * b7 + 4 * b6 + 2 * b5 + b4; n == 16 * q4 + 8 * b3 + 4 * b2 + 2 * b1 + b0
    ensures Bit(n, 0) == b0 && Bit(n, 1) == b1 && Bit(n, 2) == b2 && Bit(n, 3) == b3
    ensures Bit(n, 4) == b4 && Bit(n, 5) == b5 && Bit(n, 6) == b6 && Bit(n, 7) == b7
  {
    hide Bit;
    var q7: nat := b7;
    var q6, q5: nat := 2 * q7 + b6, 4 * q7 + 2 * b6 + b5;
    var q4: nat := 2 * q5 + b4;
    var q3: nat := 2 * q4 + b3;
    var q2: nat := 2 * q3 + b2;
    var q1: nat := 2 * q2 + b1;
    BitStep(n, q1, b0);
    BitStep(q1, q2, b1);
    BitStep(q2, q3, b2);
    BitStep(q3, q4, b3);
    BitStep(q4, q5, b4);
    BitStep(q5, q6, b5);
    BitStep(q6, q7, b6);
    BitStep(q7, 0, b7);
  }

  lemma MaskA0()
    ensures forall k :: 0 <= k < 8 ==> (Bit(0x51, k) == 1 <==> k == 0 || k == 4 || k == 6)
  {
    hide Bit;
    EightBits(0x51, 0, 1, 0, 1, 0, 0, 0, 1);
  }

  lemma MaskA1()
    ensures forall k :: 0 <= k < 8 ==> (Bit(0x53, k) == 1 <==> k == 0 || k == 1 || k == 4 || k == 6)
  {
    hide Bit;
    EightBits(0x53, 0, 1, 0, 1, 0, 0, 1, 1);
  }

  lemma MaskA2()
    ensures forall k :: 0 <= k < 8 ==> (Bit(0xD0, k) == 1 <==> k == 4 || k == 6 || k == 7)
  {
    hide Bit;
    EightBits(0xD0, 1, 1, 0, 1, 0, 0, 0, 0);
  }

  lemma MaskA3()
    ensures forall k :: 0 <= k < 8 ==> (Bit(0xF2, k) == 1 <==> k == 1 || k == 4 || k == 5 || k == 6 || k == 7)
  {
    hide Bit;
    EightBits(0xF2, 1, 1, 1, 1, 0, 0, 1, 0);
  }

  lemma MaskB0()
    ensures forall k :: 0 <= k < 8 ==> (Bit(0x47, k) == 1 <==> k == 0 || k == 1 || k == 2 || k == 6)
  {
    hide Bit;
    EightBits(0x47, 0, 1, 0, 0, 0, 1, 1, 1);
  }

  lemma MaskB1()
    ensures forall k :: 0 <= k < 8 ==> (Bit(0x3C, k) == 1 <==> k == 2 || k == 3 || k == 4 || k == 5)
  {
    hide Bit;
    EightBits(0x3C, 0, 0, 1, 1, 1, 1, 0, 0);
  }

  lemma MaskB2()
    ensures forall k :: 0 <= k < 8 ==> (Bit(0x61, k) == 1 <==> k == 0 || k == 5 || k == 6)
  {
    hide Bit;
    EightBits(0x61, 0, 1, 1, 0, 0, 0, 0, 1);
  }

  lemma MaskB3()
    ensures forall k :: 0 <= k < 8 ==> (Bit(0xE4, k) == 1 <==> k == 2 || k == 5 || k == 6 || k == 7)
  {
    hide Bit;
    EightBits(0xE4, 1, 1, 1, 0, 0, 1, 0, 0);
  }

  /** The bits of a word by its bytes. */
  lemma BitsByBytes(b3: byte, b2: byte, b1: byte, b0: byte)
    ensures var n := ((b3 * 256 + b2) * 256 + b1) * 256 + b0;
            forall k :: 0 <= k < 32 ==>
              Bit(n, k) == if k < 8 then Bit(b0, k) else if k < 16 then Bit(b1, k - 8)
                           else if k < 24 then Bit(b2, k - 16) else Bit(b3, k - 24)
  {
    var n := ((b3 * 256 + b2) * 256 + b1) * 256 + b0;
    Pow2Values();
    forall k | 0 <= k < 32
      ensures Bit(n, k) == if k < 8 then Bit(b0, k) else if k < 16 then Bit(b1, k - 8)
                           else if k < 24 then Bit(b2, k - 16) else Bit(b3, k - 24)
    {
      BitOfJoined((b3 * 256 + b2) * 256 + b1, b0, 8, k);
      if k >= 8 {
        BitOfJoined(b3 * 256 + b2, b1, 8, k - 8);
        if k >= 16 {
          BitOfJoined(b3, b2, 8, k - 16);
        }
      }
      hide Bit;
    }
  }

  const DELAYS_A: seq<nat> := [0, 4, 6, 8, 9, 12, 14, 20, 22, 23, 25, 28, 29, 30, 31]
  const DELAYS_B: seq<nat> := [0, 1, 2, 6, 10, 11, 12, 13, 16, 21, 22, 26, 29, 30, 31]

  lemma MembersA(k: nat)
    ensures k in DELAYS_A <==>
            k == 0 || k == 4 || k == 6 || k == 8 || k == 9 || k == 12 || k == 14 ||
            k == 20 || k == 22 || k == 23 || k == 25 || k == 28 || k == 29 || k == 30 || k == 31
  {
  }

  lemma MaskA()
    ensures forall k :: 0 <= k < 32 ==> (WordOf(POLY_A)[k] == 1 <==> k in DELAYS_A)
  {
    hide Bit;
    BitsByBytes(0xF2, 0xD0, 0x53, 0x51);
    assert POLY_A == ((0xF2 * 256 + 0xD0) * 256 + 0x53) * 256 + 0x51;
    MaskA0();
    MaskA1();
    MaskA2();
    MaskA3();
    forall k | 0 <= k < 32 ensures Bit(POLY_A, k) == 1 <==> k in DELAYS_A {
      MembersA(k);
    }
    hide DELAYS_A;
  }

  lemma MembersB(k: nat)
    ensures k in DELAYS_B <==>
            k == 0 || k == 1 || k == 2 || k == 6 || k == 10 || k == 11 || k == 12 ||
            k == 13 || k == 16 || k == 21 || k == 22 || k == 26 || k == 29 || k == 30 || k == 31
  {
  }

  lemma MaskB()
    ensures forall k :: 0 <= k < 32 ==> (WordOf(POLY_B)[k] == 1 <==> k in DELAYS_B)
  {
    hide Bit;
    BitsByBytes(0xE4, 0x61, 0x3C, 0x47);
    assert POLY_B == ((0xE4 * 256 + 0x61) * 256 + 0x3C) * 256 + 0x47;
    MaskB0();
    MaskB1();
    MaskB2();
    MaskB3();
    forall k | 0 <= k < 32 ensures Bit(POLY_B, k) == 1 <==> k in DELAYS_B {
      MembersB(k);
    }
    hide DELAYS_B;
  }

  /** Every even coded bit is the XOR of the input bit and those 4, 6, 8, ... before it, every odd one the XOR of
      the input bit and those 1, 2, 6, ... before it. */
  lemma ConvolveDelays(bits: seq<bit>, i: nat)
    requires i < |bits|
    ensures Convolve(bits)[2 * i] ==
            Delayed(bits, i, [0, 4, 6, 8, 9, 12, 14, 20, 22, 23, 25, 28, 29, 30, 31])
    ensures Convolve(bits)[2 * i + 1] ==
            Delayed(bits, i, [0, 1, 2, 6, 10, 11, 12, 13, 16, 21, 22, 26, 29, 30, 31])
  {
    hide Tap;
    hide WordOf;
    hide Register;
    hide Convolve;
    hide Delayed;
    ConvolveBit(bits, 2 * i);
    ConvolveBit(bits, 2 * i + 1);
    MaskA();
    MaskB();
    TapDelays(bits, i, POLY_A, DELAYS_A);
    TapDelays(bits, i, POLY_B, DELAYS_B);
  }

  lemma TapLinear(x: Word, y: Word, poly: nat)
    ensures Tap(XorBits(x, y), poly) == Xor(Tap(x, poly), Tap(y, poly))
  {
    var g := WordOf(poly);
    assert And(XorBits(x, y), g) == XorBits(And(x, g), And(y, g));
    ParityIsXorOfAllBits(And(XorBits(x, y), g));
    ParityIsXorOfAllBits(And(x, g));
    ParityIsXorOfAllBits(And(y, g));
    XorAllLinear(And(x, g), And(y, g));
  }

  lemma RegisterLinear(a: seq<bit>, b: seq<bit>, n: nat)
    requires |a| == |b| && n <= |a|
    ensures Register(XorBits(a, b), n) == XorBits(Register(a, n), Register(b, n))
  {
    forall k | 0 <= k < 32
      ensures Register(XorBits(a, b), n)[k] == XorBits(Register(a, n), Register(b, n))[k]
    {
      RegisterWindow(XorBits(a, b), n, k);
      RegisterWindow(a, n, k);
      RegisterWindow(b, n, k);
    }
  }

  lemma ConvolveAt(a: seq<bit>, b: seq<bit>, k: nat)
    requires |a| == |b| && k < 2 * |a|
    ensures Convolve(XorBits(a, b))[k] == Xor(Convolve(a)[k], Convolve(b)[k])
  {
    ConvolveBit(a, k);
    ConvolveBit(b, k);
    ConvolveBit(XorBits(a, b), k);
    RegisterLinear(a, b, k / 2 + 1);
    TapLinear(Register(a, k / 2 + 1), Register(b, k / 2 + 1), Generator(k));
  }

  /** The code is linear over XOR, for streams of every length. */
  lemma ConvolveLinear(a: seq<bit>, b: seq<bit>)
    requires |a| == |b|
    ensures Convolve(XorBits(a, b)) == XorBits(Convolve(a), Convolve(b))
  {
    forall k | 0 <= k < 2 * |a|
      ensures Convolve(XorBits(a, b))[k] == XorBits(Convolve(a), Convolve(b))[k]
    {
      ConvolveAt(a, b, k);
    }
  }

  lemma {:induction false} XorAllOfUnit(s: seq<bit>, k: nat)
    requires k < |s| && forall i :: 0 <= i < |s| && i != k ==> s[i] == 0
    ensures XorAll(s) == s[k]
  {
    if k == 0 {
      XorAllOfZeros(s[1..]);
    } else {
      XorAllOfUnit(s[1..], k - 1);
    }
  }

  lemma {:induction false} XorAllOfZeros(s: seq<bit>)
    requires forall i :: 0 <= i < |s| ==> s[i] == 0
    ensures XorAll(s) == 0
  {
    if s != [] {
      XorAllOfZeros(s[1..]);
    }
  }

  /** Both generators tap the newest and the oldest bit of the register. */
  lemma GeneratorEnds(poly: nat)
    requires poly == POLY_A || poly == POLY_B
    ensures WordOf(poly)[0] == 1 && WordOf(poly)[31] == 1
  {
    Pow2Values();
    BitShift(poly, 31, 0, poly / 0x8000_0000);
  }

  /** Registers that differ in exactly the newest or exactly the oldest bit have different outputs. */
  lemma TapDiffers(x: Word, y: Word, k: nat, poly: nat)
    requires k == 0 || k == 31
    requires poly == POLY_A || poly == POLY_B
    requires forall i :: 0 <= i < 32 ==> (x[i] != y[i] <==> i == k)
    ensures Tap(x, poly) != Tap(y, poly)
  {
    var d := XorBits(x, y);
    TapLinear(x, y, poly);
    ParityIsXorOfAllBits(And(d, WordOf(poly)));
    GeneratorEnds(poly);
    XorAllOfUnit(And(d, WordOf(poly)), k);
  }

  /** The sequential decoder: recovers `n` input bits, each from its output pair and the bits before it. */
  function Deconvolve(out: seq<bit>, n: nat): (bits: seq<bit>)
    requires 2 * n <= |out|
    ensures |bits| == n
  {
    if n == 0 then [] else
      var before := Deconvolve(out, n - 1);
      var reg := Register(before, n - 1);
      before + [if Tap(ShiftIn(reg, 0), POLY_A) == out[2 * (n - 1)] then 0 else 1]
  }

  lemma {:induction false} RegisterPrefix(a: seq<bit>, b: seq<bit>, n: nat)
    requires n <= |a| && n <= |b| && a[..n] == b[..n]
    ensures Register(a, n) == Register(b, n)
  {
    if n > 0 {
      assert a[..n - 1] == a[..n][..n - 1] == b[..n][..n - 1] == b[..n - 1];
      assert a[n - 1] == a[..n][n - 1] == b[..n][n - 1] == b[n - 1];
      RegisterPrefix(a, b, n - 1);
    }
  }

  lemma TapPairDiffers(reg: Word)
    ensures Tap(ShiftIn(reg, 0), POLY_A) != Tap(ShiftIn(reg, 1), POLY_A)
  {
    hide Tap;
    TapDiffers(ShiftIn(reg, 0), ShiftIn(reg, 1), 0, POLY_A);
  }

  lemma CodedBit(bits: seq<bit>, n: nat)
    requires 0 < n <= |bits|
    ensures Convolve(bits)[2 * (n - 1)] == Tap(ShiftIn(Register(bits, n - 1), bits[n - 1]), POLY_A)
  {
    hide Tap;
    ConvolveBit(bits, 2 * (n - 1));
  }

  /** The code is causally invertible: the decoder undoes the encoder on every prefix, even when only
      the coded prefix `out` of the stream is known. */
  lemma {:induction false} DeconvolveConvolve(bits: seq<bit>, out: seq<bit>, n: nat)
    requires n <= |bits| && 2 * n <= |out|
    requires forall k :: 0 <= k < 2 * n ==> out[k] == Convolve(bits)[k]
    ensures Deconvolve(out, n) == bits[..n]
  {
    hide Tap;
    hide Convolve;
    hide ShiftIn;
    hide Register;
    if n > 0 {
      DeconvolveConvolve(bits, out, n - 1);
      var before := Deconvolve(out, n - 1);
      RegisterPrefix(before, bits, n - 1);
      CodedBit(bits, n);
      TapPairDiffers(Register(bits, n - 1));
      assert bits[..n] == bits[..n - 1] + [bits[n - 1]];
    }
  }

  lemma WindowDiffers(a: seq<bit>, b: seq<bit>, n: nat, k: nat)
    requires |a| == |b| && n <= |a|
    requires k < n && k < 32
    requires a[n - 1 - k] != b[n - 1 - k]
    requires forall i :: 0 <= i < n && n - 32 <= i && i != n - 1 - k ==> a[i] == b[i]
    ensures forall i :: 0 <= i < 32 ==> (Register(a, n)[i] != Register(b, n)[i] <==> i == k)
  {
    forall i | 0 <= i < 32
      ensures Register(a, n)[i] != Register(b, n)[i] <==> i == k
    {
      RegisterWindow(a, n, i);
      RegisterWindow(b, n, i);
    }
  }

  /** Where two streams first differ, both output bits differ. */
  lemma FirstDifferenceShows(a: seq<bit>, b: seq<bit>, i: nat)
    requires |a| == |b| && i < |a| && a[i] != b[i]
    requires forall k :: 0 <= k < i ==> a[k] == b[k]
    ensures Convolve(a)[2 * i] != Convolve(b)[2 * i]
    ensures Convolve(a)[2 * i + 1] != Convolve(b)[2 * i + 1]
  {
    hide Tap;
    hide Convolve;
    WindowDiffers(a, b, i + 1, 0);
    ConvolveBit(a, 2 * i);
    ConvolveBit(a, 2 * i + 1);
    ConvolveBit(b, 2 * i);
    ConvolveBit(b, 2 * i + 1);
    TapDiffers(Register(a, i + 1), Register(b, i + 1), 0, POLY_A);
    TapDiffers(Register(a, i + 1), Register(b, i + 1), 0, POLY_B);
  }

  /** A last difference is flushed out of the oldest register bit 31 steps later. */
  lemma LastDifferenceShows(a: seq<bit>, b: seq<bit>, j: nat)
    requires |a| == |b| && j + 31 < |a| && a[j] != b[j]
    requires forall k :: j < k < |a| ==> a[k] == b[k]
    ensures Convolve(a)[2 * (j + 31)] != Convolve(b)[2 * (j + 31)]
    ensures Convolve(a)[2 * (j + 31) + 1] != Convolve(b)[2 * (j + 31) + 1]
  {
    hide Tap;
    hide Convolve;
    WindowDiffers(a, b, j + 32, 31);
    ConvolveBit(a, 2 * (j + 31));
    ConvolveBit(a, 2 * (j + 31) + 1);
    ConvolveBit(b, 2 * (j + 31));
    ConvolveBit(b, 2 * (j + 31) + 1);
    TapDiffers(Register(a, j + 32), Register(b, j + 32), 31, POLY_A);
    TapDiffers(Register(a, j + 32), Register(b, j + 32), 31, POLY_B);
  }

  // ------------------------------------------------------------- interleaver

  /** The firmware's three swaps on an 8-bit value, most significant bit first: the two nibbles, the pairs
      in each nibble, the bits in each pair. */
  function BitReverse8(v0: seq<bit>): (v3: seq<bit>)
    requires |v0| == 8
    ensures |v3| == 8
  {
    var v1 := v0[4..] + v0[..4];
    var v2 := [v1[2], v1[3], v1[0], v1[1], v1[6], v1[7], v1[4], v1[5]];
    [v2[1], v2[0], v2[3], v2[2], v2[5], v2[4], v2[7], v2[6]]
  }

  lemma BitReverse8Reverses(v: seq<bit>, i: nat)
    requires |v| == 8 && i < 8
    ensures BitReverse8(v)[i] == v[7 - i]
  {
  }

  lemma BitReverse8Involution(v: seq<bit>)
    requires |v| == 8
    ensures BitReverse8(BitReverse8(v)) == v
  {
    forall i | 0 <= i < 8
      ensures BitReverse8(BitReverse8(v))[i] == v[i]
    {
      BitReverse8Reverses(BitReverse8(v), i);
      BitReverse8Reverses(v, 7 - i);
    }
  }

  function Reverse(j: nat): (r: nat)
    requires j < 256
    ensures r < 256
  {
    Pow2Values();
    BitsValue(BitReverse8(ValueBits(j, 8)))
  }

  /** The counter's eight bits in reverse. */
  lemma ReverseIs(j: nat)
    requires j < 256
    ensures Reverse(j) == j % 2 * 128 + j / 2 % 2 * 64 + j / 4 % 2 * 32 + j / 8 % 2 * 16 + j / 16 % 2 * 8 +
                          j / 32 % 2 * 4 + j / 64 % 2 * 2 + j / 128 % 2
  {
    var b := ValueBits(j, 8);
    LowBits(j);
    var v := BitReverse8(b);
    hide BitReverse8;
    BitReverse8Reverses(b, 0);
    BitReverse8Reverses(b, 1);
    BitReverse8Reverses(b, 2);
    BitReverse8Reverses(b, 3);
    BitReverse8Reverses(b, 4);
    BitReverse8Reverses(b, 5);
    BitReverse8Reverses(b, 6);
    BitReverse8Reverses(b, 7);
    EightSpelled(v);
    hide BitsValue;
    hide ValueBits;
  }

  lemma LowBits(j: nat)
    requires j < 256
    ensures var b := ValueBits(j, 8);
            b[7] == j % 2 && b[6] == j / 2 % 2 && b[5] == j / 4 % 2 && b[4] == j / 8 % 2 &&
            b[3] == j / 16 % 2 && b[2] == j / 32 % 2 && b[1] == j / 64 % 2 && b[0] == j / 128 % 2
  {
    hide Bit;
    Halved(j, 1);
    Halved(j, 2);
    Halved(j, 4);
    Halved(j, 8);
    Halved(j, 16);
    Halved(j, 32);
    Halved(j, 64);
    BitStep(j, j / 2, j % 2);
    BitStep(j / 2, j / 4, j / 2 % 2);
    BitStep(j / 4, j / 8, j / 4 % 2);
    BitStep(j / 8, j / 16, j / 8 % 2);
    BitStep(j / 16, j / 32, j / 16 % 2);
    BitStep(j / 32, j / 64, j / 32 % 2);
    BitStep(j / 64, j / 128, j / 64 % 2);
    BitStep(j / 128, 0, j / 128);
  }

  lemma Halved(j: nat, p: nat)
    requires p > 0
    ensures j / p >= 0 && j / (2 * p) >= 0 && j / p == 2 * (j / (2 * p)) + j / p % 2
  {
    DivDiv(j, p, 2);
    DivNat(j, p);
    DivNat(j, 2 * p);
  }

  lemma EightSpelled(v: seq<bit>)
    requires |v| == 8
    ensures BitsValue(v) == v[0] as int * 128 + v[1] as int * 64 + v[2] as int * 32 + v[3] as int * 16 +
                            v[4] as int * 8 + v[5] as int * 4 + v[6] as int * 2 + v[7] as int
  {
    hide BitsValue;
    PrefixValue(v, 0);
    PrefixValue(v, 1);
    PrefixValue(v, 2);
    PrefixValue(v, 3);
    PrefixValue(v, 4);
    PrefixValue(v, 5);
    PrefixValue(v, 6);
    PrefixValue(v, 7);
    assert v[..8] == v && v[..0] == [];
    NoBitsValue();
  }

  lemma NoBitsValue()
    ensures BitsValue([]) == 0
  {
  }

  lemma ReverseInvolution(j: nat)
    requires j < 256
    ensures Reverse(Reverse(j)) == j
  {
    var v := ValueBits(j, 8);
    ValueBitsOfBitsValue(BitReverse8(v));
    BitReverse8Involution(v);
    hide BitReverse8;
    BitsValueOfValueBits(j, 8);
    Pow2Values();
  }

  /** The destinations the interleaver has written when its counter reaches `n`, in order. */
  function Slots(n: nat): (slots: seq<nat>)
    requires n <= ROUNDS
    ensures forall i :: 0 <= i < |slots| ==> slots[i] < SYMBOL_COUNT
  {
    if n == 0 then []
    else if Reverse(n - 1) < SYMBOL_COUNT then Slots(n - 1) + [Reverse(n - 1)]
    else Slots(n - 1)
  }

  lemma {:induction false} SlotsMembers(n: nat, r: nat)
    requires n <= ROUNDS && r < SYMBOL_COUNT
    ensures r in Slots(n) <==> Reverse(r) < n
  {
    hide Reverse;
    if n > 0 {
      SlotsMembers(n - 1, r);
      ReverseInvolution(r);
      ReverseInvolution(n - 1);
    }
  }

  lemma {:induction false} SlotsDistinct(n: nat)
    requires n <= ROUNDS
    ensures forall i, k :: 0 <= i < k < |Slots(n)| ==> Slots(n)[i] != Slots(n)[k]
  {
    hide Reverse;
    if n > 0 {
      SlotsDistinct(n - 1);
      if Reverse(n - 1) < SYMBOL_COUNT {
        SlotsMembers(n - 1, Reverse(n - 1));
        ReverseInvolution(n - 1);
      }
    }
  }

  lemma {:induction false} SlotsGrow(m: nat, n: nat)
    requires m <= n <= ROUNDS
    ensures Slots(m) <= Slots(n)
  {
    hide Reverse;
    if m < n {
      SlotsGrow(m, n - 1);
    }
  }

  /** The slots are written in the order of their reversed numbers. */
  lemma {:induction false} SlotsByReversal(n: nat)
    requires n <= ROUNDS
    ensures forall i :: 0 <= i < |Slots(n)| ==> Reverse(Slots(n)[i]) < n
    ensures forall i, k :: 0 <= i < k < |Slots(n)| ==> Reverse(Slots(n)[i]) < Reverse(Slots(n)[k])
  {
    hide Reverse;
    if n > 0 {
      SlotsByReversal(n - 1);
      ReverseInvolution(n - 1);
    }
  }

  /** `r` is the slot written when exactly `|Slots(Reverse(r))|` symbols have been placed. */
  lemma SlotPosition(r: nat)
    requires r < SYMBOL_COUNT
    ensures |Slots(Reverse(r))| < |Slots(ROUNDS)|
    ensures Slots(ROUNDS)[|Slots(Reverse(r))|] == r
  {
    hide Reverse;
    ReverseInvolution(r);
    SlotsGrow(Reverse(r) + 1, ROUNDS);
    assert Slots(Reverse(r) + 1) == Slots(Reverse(r)) + [r];
  }

  function Below(n: nat): (s: set<nat>)
    ensures forall k: nat :: k in s <==> k < n
    ensures |s| == n
  {
    if n == 0 then {} else Below(n - 1) + {n - 1}
  }

  function Elements(s: seq<nat>): (e: set<nat>)
    ensures forall x :: x in e <==> x in s
  {
    set x | x in s
  }

  lemma {:induction false} DistinctSize(s: seq<nat>)
    requires forall i, k :: 0 <= i < k < |s| ==> s[i] != s[k]
    ensures |Elements(s)| == |s|
  {
    if s == [] {
      assert Elements(s) == {};
    } else {
      var last := |s| - 1;
      DistinctSize(s[..last]);
      assert s == s[..last] + [s[last]];
      assert Elements(s) == Elements(s[..last]) + {s[last]};
      assert s[last] !in s[..last];
    }
  }

  lemma DistinctCover(s: seq<nat>, n: nat)
    requires forall i, k :: 0 <= i < k < |s| ==> s[i] != s[k]
    requires forall r: nat :: r in s <==> r < n
    ensures |s| == n
  {
    DistinctSize(s);
    assert Elements(s) == Below(n);
  }

  /** The interleaver's loop writes every slot exactly once. */
  lemma SlotsArePermutation()
    ensures |Slots(ROUNDS)| == SYMBOL_COUNT
    ensures forall r: nat :: r in Slots(ROUNDS) <==> r < SYMBOL_COUNT
    ensures forall i, k :: 0 <= i < k < SYMBOL_COUNT ==> Slots(ROUNDS)[i] != Slots(ROUNDS)[k]
    ensures forall i :: 0 <= i < SYMBOL_COUNT ==> Slots(ROUNDS)[i] < SYMBOL_COUNT
  {
    SlotsDistinct(ROUNDS);
    forall r: nat | r < SYMBOL_COUNT
      ensures r in Slots(ROUNDS)
    {
      SlotsMembers(ROUNDS, r);
    }
    DistinctCover(Slots(ROUNDS), SYMBOL_COUNT);
    assert forall i :: 0 <= i < SYMBOL_COUNT ==> Slots(ROUNDS)[i] in Slots(ROUNDS);
  }

  lemma PositionInRange(r: nat)
    requires r < SYMBOL_COUNT
    ensures |Slots(Reverse(r))| < SYMBOL_COUNT
  {
    SlotPosition(r);
    SlotsArePermutation();
  }

  /** The interleaved symbols as a function of the coded ones. */
  function Interleaved(coded: seq<bit>): (s: seq<bit>)
    requires |coded| == SYMBOL_COUNT
    ensures |s| == SYMBOL_COUNT
  {
    seq(SYMBOL_COUNT, r requires 0 <= r < SYMBOL_COUNT =>
      PositionInRange(r); coded[|Slots(Reverse(r))|])
  }

  function Deinterleave(s: seq<bit>): (coded: seq<bit>)
    requires |s| == SYMBOL_COUNT
    ensures |coded| == SYMBOL_COUNT
  {
    SlotsArePermutation();
    seq(SYMBOL_COUNT, i requires 0 <= i < |Slots(ROUNDS)| => s[Slots(ROUNDS)[i]])
  }

  lemma InterleavedAtSlot(coded: seq<bit>, i: nat)
    requires |coded| == SYMBOL_COUNT && i < SYMBOL_COUNT
    ensures |Slots(ROUNDS)| == SYMBOL_COUNT && Slots(ROUNDS)[i] < SYMBOL_COUNT
    ensures Interleaved(coded)[Slots(ROUNDS)[i]] == coded[i]
  {
    SlotsArePermutation();
    var r := Slots(ROUNDS)[i];
    assert r in Slots(ROUNDS);
    SlotPosition(r);
    PositionInRange(r);
    assert |Slots(Reverse(r))| == i;
  }

  lemma DeinterleaveInterleaved(coded: seq<bit>)
    requires |coded| == SYMBOL_COUNT
    ensures Deinterleave(Interleaved(coded)) == coded
  {
    forall i | 0 <= i < SYMBOL_COUNT
      ensures Deinterleave(Interleaved(coded))[i] == coded[i]
    {
      InterleavedAtSlot(coded, i);
    }
  }

  // --------------------------------------------------------- channel symbols

  function Merged(interleaved: seq<bit>): (symbols: seq<byte>)
    requires |interleaved| == SYMBOL_COUNT
    ensures |symbols| == SYMBOL_COUNT
  {
    seq(SYMBOL_COUNT, i requires 0 <= i < SYMBOL_COUNT => interleaved[i] * 2 + Sync(i))
  }

  function DataBits(symbols: seq<byte>): (data: seq<bit>)
    requires |symbols| == SYMBOL_COUNT
    requires forall i :: 0 <= i < SYMBOL_COUNT ==> symbols[i] < 4
    ensures |data| == SYMBOL_COUNT
  {
    seq(SYMBOL_COUNT, i requires 0 <= i < SYMBOL_COUNT => symbols[i] / 2)
  }

  /** The 162 four-level channel symbols of a message stream (88 bits, of which 81 are coded). */
  function ChannelSymbols(bits: seq<bit>): (symbols: seq<byte>)
    requires |bits| == 8 * MSG_BYTES
    ensures |symbols| == SYMBOL_COUNT
  {
    Merged(Interleaved(Convolve(bits)[..SYMBOL_COUNT]))
  }

  /** Strip the sync, undo the interleaver, decode the convolutional code. */
  function DecodeChannel(symbols: seq<byte>): (bits: seq<bit>)
    requires |symbols| == SYMBOL_COUNT
    requires forall i :: 0 <= i < SYMBOL_COUNT ==> symbols[i] < 4
    ensures |bits| == CODED_BITS
  {
    Deconvolve(Deinterleave(DataBits(symbols)), CODED_BITS)
  }

  lemma DecodeChannelSymbols(bits: seq<bit>)
    requires |bits| == 8 * MSG_BYTES
    ensures forall i :: 0 <= i < SYMBOL_COUNT ==> ChannelSymbols(bits)[i] < 4
    ensures DecodeChannel(ChannelSymbols(bits)) == bits[..CODED_BITS]
  {
    hide Convolve;
    hide Deconvolve;
    hide Interleaved;
    hide Deinterleave;
    var coded := Convolve(bits)[..SYMBOL_COUNT];
    assert DataBits(ChannelSymbols(bits)) == Interleaved(coded);
    DeinterleaveInterleaved(coded);
    DeconvolveConvolve(bits, coded, CODED_BITS);
  }

  /** The positions in which two symbol sequences differ. */
  function Differences(s: seq<byte>, t: seq<byte>): set<nat>
    requires |s| == |t|
  {
    set i: nat | i < |s| && s[i] != t[i]
  }

  /** Every coded difference shows up, at its own slot, in the channel symbols. */
  lemma DifferenceTransmitted(a: seq<bit>, b: seq<bit>, p: nat)
    requires |a| == |b| == 8 * MSG_BYTES && p < SYMBOL_COUNT
    requires Convolve(a)[p] != Convolve(b)[p]
    ensures |Slots(ROUNDS)| == SYMBOL_COUNT
    ensures Slots(ROUNDS)[p] in Differences(ChannelSymbols(a), ChannelSymbols(b))
  {
    SlotsArePermutation();
    InterleavedAtSlot(Convolve(a)[..SYMBOL_COUNT], p);
    InterleavedAtSlot(Convolve(b)[..SYMBOL_COUNT], p);
  }

  lemma FindDifferences(a: seq<bit>, b: seq<bit>) returns (first: nat, last: nat)
    requires |a| == |b| && a != b
    ensures first <= last < |a| && a[first] != b[first] && a[last] != b[last]
    ensures forall k :: 0 <= k < first ==> a[k] == b[k]
    ensures forall k :: last < k < |a| ==> a[k] == b[k]
  {
    var w :| 0 <= w < |a| && a[w] != b[w];
    first := 0;
    while a[first] == b[first]
      invariant first <= w
      invariant forall k :: 0 <= k < first ==> a[k] == b[k]
      decreases w - first
    {
      first := first + 1;
    }
    last := |a| - 1;
    while a[last] == b[last]
      invariant first <= last < |a|
      invariant forall k :: last < k < |a| ==> a[k] == b[k]
      decreases last
    {
      last := last - 1;
    }
  }

  /** Two different messages of 50 data bits and a common tail are sent as symbols that differ in at
      least four positions. */
  lemma MinimumDistance(a: seq<bit>, b: seq<bit>)
    requires |a| == |b| == 8 * MSG_BYTES && a != b
    requires a[50..] == b[50..]
    ensures |Differences(ChannelSymbols(a), ChannelSymbols(b))| >= 4
  {
    hide Convolve;
    hide ChannelSymbols;
    hide Slots;
    var i, j := FindDifferences(a, b);
    assert forall k :: 50 <= k < |a| ==> a[k] == a[50..][k - 50] == b[50..][k - 50] == b[k];
    FirstDifferenceShows(a, b, i);
    LastDifferenceShows(a, b, j);
    var d := Differences(ChannelSymbols(a), ChannelSymbols(b));
    DifferenceTransmitted(a, b, 2 * i);
    DifferenceTransmitted(a, b, 2 * i + 1);
    DifferenceTransmitted(a, b, 2 * (j + 31));
    DifferenceTransmitted(a, b, 2 * (j + 31) + 1);
    SlotsArePermutation();
    var slots := Slots(ROUNDS);
    var four := {slots[2 * i], slots[2 * i + 1], slots[2 * (j + 31)], slots[2 * (j + 31) + 1]};
    assert |four| == 4;
    assert d == four + (d - four);
  }

  /** What is sent, symbol by symbol: the k-th coded bit, which is the XOR of some of the input bits up to bit k / 2,
      goes to the k-th of the 162 slots in the order of their bit-reversed numbers, doubled, with the
      synchronisation bit of that slot. */
  lemma ChannelSpelled(bits: seq<bit>, k: nat)
    requires |bits| == 88 && k < 162
    ensures |Slots(256)| == 162
    ensures var r, i := Slots(256)[k], k / 2;
            r < 162 &&
            ChannelSymbols(bits)[r] ==
              2 * (if k % 2 == 0 then Delayed(bits, i, [0, 4, 6, 8, 9, 12, 14, 20, 22, 23, 25, 28, 29, 30, 31])
                   else Delayed(bits, i, [0, 1, 2, 6, 10, 11, 12, 13, 16, 21, 22, 26, 29, 30, 31])) +
              (if SyncOne(r) then 1 else 0)
  {
    hide Convolve;
    hide Delayed;
    hide Slots;
    hide Interleaved;
    hide SyncOne;
    hide Sync;
    InterleavedAtSlot(Convolve(bits)[..SYMBOL_COUNT], k);
    ConvolveDelays(bits, k / 2);
    SyncIs(Slots(256)[k]);
    assert 2 * (k / 2) + k % 2 == k;
  }

  // ------------------------------------------- the firmware's array algorithms

  lemma RegisterStart(bits: seq<bit>)
    ensures Register(bits, 0) == Repeat(0 as bit, 32)
  {
  }

  lemma RegisterStep(bits: seq<bit>, n: nat, reg: Word)
    requires n < |bits| && reg == Register(bits, n)
    ensures ShiftIn(reg, bits[n]) == Register(bits, n + 1)
  {
  }

  method ConvolveInto(packed: array<byte>, convolved: array<byte>)
    requires packed.Length == MSG_BYTES && convolved.Length == SYMBOL_COUNT && packed != convolved
    modifies convolved
    ensures convolved[..] == Convolve(AllBits(packed[..]))[..SYMBOL_COUNT]
  {
    hide Tap;
    hide Convolve;
    hide AllBits;
    hide Bit;
    hide Register;
    hide ShiftIn;
    ghost var bits := AllBits(packed[..]);
    var shiftReg: Word := Repeat(0 as bit, 32);
    assert shiftReg == Register(bits, 0) by {
      RegisterStart(bits);
    }
    var outIdx := 0;
    var i := 0;
    while i < MSG_BYTES && outIdx < SYMBOL_COUNT
      invariant 0 <= i <= MSG_BYTES && 0 <= outIdx <= SYMBOL_COUNT
      invariant outIdx < SYMBOL_COUNT ==> outIdx == 16 * i
      invariant i == MSG_BYTES ==> outIdx == SYMBOL_COUNT
      invariant packed[..] == old(packed[..])
      invariant outIdx % 2 == 0 && shiftReg == Register(bits, outIdx / 2)
      invariant forall k :: 0 <= k < outIdx ==> convolved[k] == Convolve(bits)[k]
    {
      var j := 7;
      while j >= 0 && outIdx < SYMBOL_COUNT
        invariant -1 <= j <= 7 && 0 <= outIdx <= SYMBOL_COUNT
        invariant outIdx < SYMBOL_COUNT ==> outIdx == 16 * i + 2 * (7 - j)
        invariant i == MSG_BYTES - 1 && j == -1 ==> outIdx == SYMBOL_COUNT
        invariant packed[..] == old(packed[..])
        invariant outIdx % 2 == 0 && shiftReg == Register(bits, outIdx / 2)
        invariant forall k :: 0 <= k < outIdx ==> convolved[k] == Convolve(bits)[k]
      {
        var inputBit := Bit(packed[i], j);
        BitOfByte(packed[..], i, j);
        RegisterStep(bits, outIdx / 2, shiftReg);
        shiftReg := ShiftIn(shiftReg, inputBit);
        ConvolveBit(bits, outIdx);
        ConvolveBit(bits, outIdx + 1);
        convolved[outIdx] := Tap(shiftReg, POLY_A);
        outIdx := outIdx + 1;
        convolved[outIdx] := Tap(shiftReg, POLY_B);
        outIdx := outIdx + 1;
        j := j - 1;
      }
      i := i + 1;
    }
    assert convolved[..] == Convolve(bits)[..SYMBOL_COUNT];
  }

  lemma SlotsStart()
    ensures Slots(0) == []
  {
  }

  lemma SlotsStep(j: nat)
    requires j < 256
    ensures Slots(j + 1) == if Reverse(j) < SYMBOL_COUNT then Slots(j) + [Reverse(j)] else Slots(j)
    ensures |Slots(j + 1)| <= SYMBOL_COUNT
    ensures forall i :: 0 <= i < |Slots(j)| && Reverse(j) < SYMBOL_COUNT ==> Slots(j)[i] != Reverse(j)
  {
    SlotsGrow(j + 1, ROUNDS);
    SlotsArePermutation();
    SlotsDistinct(j + 1);
    if Reverse(j) < SYMBOL_COUNT {
      var last := |Slots(j)|;
      assert Slots(j + 1)[last] == Reverse(j);
      assert forall i :: 0 <= i < last ==> Slots(j)[i] == Slots(j + 1)[i] != Slots(j + 1)[last];
    }
  }

  lemma InterleavedFromSlots(coded: seq<bit>, s: seq<byte>)
    requires |coded| == |s| == SYMBOL_COUNT && |Slots(ROUNDS)| == SYMBOL_COUNT
    requires forall i :: 0 <= i < SYMBOL_COUNT ==> s[Slots(ROUNDS)[i]] == coded[i]
    ensures s == Interleaved(coded)
  {
    SlotsArePermutation();
    forall r | 0 <= r < SYMBOL_COUNT
      ensures s[r] == Interleaved(coded)[r]
    {
      assert r in Slots(ROUNDS);
      var i :| 0 <= i < SYMBOL_COUNT && Slots(ROUNDS)[i] == r;
      InterleavedAtSlot(coded, i);
    }
  }

  method InterleaveInto(convolved: array<byte>, interleaved: array<byte>)
    requires convolved.Length == SYMBOL_COUNT && interleaved.Length == SYMBOL_COUNT
    requires convolved != interleaved
    requires forall k :: 0 <= k < SYMBOL_COUNT ==> convolved[k] <= 1
    modifies interleaved
    ensures interleaved[..] == Interleaved(convolved[..])
  {
    hide Reverse;
    hide Slots;
    hide Interleaved;
    ghost var coded := convolved[..];
    assert |Slots(0)| == 0 by {
      SlotsStart();
    }
    var src := 0;
    var j := 0;
    while j < ROUNDS && src < SYMBOL_COUNT
      invariant 0 <= j <= ROUNDS && src == |Slots(j)| <= SYMBOL_COUNT
      invariant convolved[..] == coded
      invariant forall i :: 0 <= i < src ==> interleaved[Slots(j)[i]] == coded[i]
    {
      var rev := Reverse(j);
      SlotsStep(j);
      if rev < SYMBOL_COUNT {
        interleaved[rev] := convolved[src];
        src := src + 1;
      }
      j := j + 1;
    }
    SlotsGrow(j, ROUNDS);
    SlotsArePermutation();
    assert Slots(j) == Slots(ROUNDS);
    InterleavedFromSlots(coded, interleaved[..]);
  }

  method MergeSync(interleaved: array<byte>, symbols: array<byte>)
    requires interleaved.Length == SYMBOL_COUNT && symbols.Length == SYMBOL_COUNT
    requires interleaved != symbols
    requires forall k :: 0 <= k < SYMBOL_COUNT ==> interleaved[k] <= 1
    modifies symbols
    ensures symbols[..] == Merged(interleaved[..])
  {
    for i := 0 to SYMBOL_COUNT
      invariant forall k :: 0 <= k < i ==> symbols[k] == interleaved[k] * 2 + Sync(k)
      invariant interleaved[..] == old(interleaved[..])
    {
      symbols[i] := interleaved[i] * 2 + Sync(i);
    }
  }
}
