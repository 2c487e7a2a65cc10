/** WSPR messages: validation, callsign padding, mixed-radix packing, and the whole encoder with its
    inverse (src/modes/encoders/wspr.c). */
module Wspr {
  import opened Machine
  import opened Bits
  import opened WsprCoding

  datatype Message = Message(callsign: string, grid: string, power: int)

  const VALID_POWERS: seq<int> := [0, 3, 7, 10, 13, 17, 20, 23, 27, 30, 33, 37, 40, 43, 47, 50, 53, 57, 60]

  predicate ValidCallsign(callsign: string) {
    2 <= |callsign| <= 6 &&
    forall i :: 0 <= i < |callsign| ==> IsAlpha(callsign[i]) || IsDigit(callsign[i]) || callsign[i] == '/'
  }

  predicate ValidGrid(grid: string) {
    |grid| == 4 &&
    'A' <= ToUpper(grid[0]) <= 'R' && 'A' <= ToUpper(grid[1]) <= 'R' &&
    IsDigit(grid[2]) && IsDigit(grid[3])
  }

  predicate Valid(m: Message) {
    ValidCallsign(m.callsign) && ValidGrid(m.grid) && m.power in VALID_POWERS
  }

  /** What the entry point accepts, by character codes: two to six letters, digits and strokes; two letters up to
      R in either case and two digits; and the power levels of the mode, 0 to 60 ending in 0, 3 or 7. */
  lemma ValidExact(m: Message)
    ensures ValidCallsign(m.callsign) <==>
            2 <= |m.callsign| <= 6 &&
            forall i :: 0 <= i < |m.callsign| ==>
              var c := m.callsign[i] as int;
              47 <= c <= 57 || 65 <= c <= 90 || 97 <= c <= 122
    ensures ValidGrid(m.grid) <==>
            |m.grid| == 4 &&
            (forall i :: 0 <= i < 2 ==> var c := m.grid[i] as int; 65 <= c <= 82 || 97 <= c <= 114) &&
            (forall i :: 2 <= i < 4 ==> 48 <= m.grid[i] as int <= 57)
    ensures m.power in VALID_POWERS <==>
            0 <= m.power <= 60 && (m.power % 10 == 0 || m.power % 10 == 3 || m.power % 10 == 7)
  {
  }

  // ---------------------------------------------------------------- padding

  predicate NeedsLeadingSpace(callsign: string) {
    |callsign| >= 2 && IsAlpha(callsign[0]) && IsDigit(callsign[1])
  }

  /** The callsign upper-cased, aligned on its digit and cut or filled to six characters. */
  function Padded(callsign: string): (padded: string)
    ensures |padded| == 6
  {
    ((if NeedsLeadingSpace(callsign) then " " else "") + Upper(callsign) + Repeat(' ', 6))[..6]
  }

  predicate Truncated(callsign: string) {
    |callsign| + (if NeedsLeadingSpace(callsign) then 1 else 0) > 6
  }

  /** The callsign shape the 28-bit field can carry. */
  predicate StandardShape(p: string) {
    |p| == 6 &&
    (IsUpper(p[0]) || IsDigit(p[0]) || p[0] == ' ') &&
    (IsUpper(p[1]) || IsDigit(p[1])) &&
    IsDigit(p[2]) &&
    forall i :: 3 <= i < 6 ==> IsUpper(p[i]) || p[i] == ' '
  }

  method PadCallsign(callsign: string, padded: array<char>)
    requires padded.Length == 7
    modifies padded
    ensures padded[..6] == Padded(callsign)
    ensures padded[6] == '\0'
  {
    ghost var full := (if NeedsLeadingSpace(callsign) then " " else "") + Upper(callsign) + Repeat(' ', 6);
    var dst := 0;
    if |callsign| >= 2 && IsAlpha(callsign[0]) && IsDigit(callsign[1]) {
      padded[dst] := ' ';
      dst := dst + 1;
    }
    ghost var lead := dst;
    var i := 0;
    while i < |callsign| && dst < 6
      invariant 0 <= i <= |callsign| && dst == lead + i <= 6
      invariant forall k :: 0 <= k < dst ==> padded[k] == full[k]
    {
      padded[dst] := ToUpper(callsign[i]);
      dst := dst + 1;
      i := i + 1;
    }
    while dst < 6
      invariant dst <= 6 && (dst < 6 ==> dst >= lead + |callsign|)
      invariant forall k :: 0 <= k < dst ==> padded[k] == full[k]
    {
      padded[dst] := ' ';
      dst := dst + 1;
    }
    padded[6] := '\0';
    assert padded[..6] == full[..6];
  }

  // ---------------------------------------------------- mixed-radix packing

  function CallsignCharValue(c: char): int {
    if IsDigit(c) then Digit(c) else if IsUpper(c) then Letter(c) + 10 else 36
  }

  /** The 32-bit unsigned accumulator of the firmware, over an already padded callsign. */
  function EncodePadded(p: string): (n: nat)
    requires |p| == 6
    ensures n < TWO_32
  {
    var n1 := U32(CallsignCharValue(p[0]) * 36 + CallsignCharValue(p[1]));
    var n2 := U32(n1 * 10 + CallsignCharValue(p[2]));
    var n3 := U32(n2 * 27 + (CallsignCharValue(p[3]) - 10));
    var n4 := U32(n3 * 27 + (CallsignCharValue(p[4]) - 10));
    U32(n4 * 27 + (CallsignCharValue(p[5]) - 10))
  }

  function EncodeCallsign(callsign: string): nat {
    EncodePadded(Padded(callsign))
  }

  function GridIndex(c: char): int {
    if 'A' <= ToUpper(c) <= 'R' then Letter(ToUpper(c)) else -1
  }

  /** The 22-bit locator and power field; -1 when a locator letter is outside A..R. */
  function EncodeGridPower(grid: string, power: int): int
    requires |grid| == 4
  {
    var loc1, loc2 := GridIndex(grid[0]), GridIndex(grid[1]);
    if loc1 < 0 || loc2 < 0 then -1 else
      ((179 - 10 * loc1 - Digit(grid[2])) * 180 + 10 * loc2 + Digit(grid[3])) * 128 + power + 64
  }

  /** The locator and power field in numbers; -1 for a letter outside A to R. */
  lemma GridPowerIs(grid: string, power: int)
    requires |grid| == 4
    ensures var a, b := ToUpper(grid[0]) as int - 65, ToUpper(grid[1]) as int - 65;
            var c, d := grid[2] as int - 48, grid[3] as int - 48;
            EncodeGridPower(grid, power) ==
            if 0 <= a < 18 && 0 <= b < 18 then ((179 - 10 * a - c) * 180 + 10 * b + d) * 128 + power + 64 else -1
  {
  }

  /** Bytes of the message: 28 bits of `n`, 22 bits of `m`, then zeros.
      Shifts and masks of the non-negative `n` and `m` are divisions and remainders. */
  function Packed(n: nat, m: nat): (packed: seq<byte>)
    ensures |packed| == MSG_BYTES
  {
    [(n / 0x10_0000) % 256, (n / 0x1000) % 256, (n / 16) % 256,
     (n % 16) * 16 + (m / 0x4_0000) % 16, (m / 1024) % 256, (m / 4) % 256, (m % 4) * 64,
     0, 0, 0, 0]
  }

  /** The 88 message bits: 28 bits of `n`, 22 bits of `m` and 38 zeros. */
  function Layout(n: nat, m: nat): (bits: seq<bit>)
    ensures |bits| == 8 * MSG_BYTES
  {
    ValueBits(n, 28) + ValueBits(m, 22) + Repeat(0 as bit, 38)
  }

  lemma SmallPowers()
    ensures Pow2(1) == 2 && Pow2(2) == 4 && Pow2(4) == 16 && Pow2(6) == 64 && Pow2(8) == 256 && Pow2(10) == 1024
    ensures Pow2(12) == 0x1000 && Pow2(18) == 0x4_0000 && Pow2(20) == 0x10_0000
    ensures Pow2(22) == 0x40_0000 && Pow2(28) == 0x1000_0000
  {
    Pow2Sum(4, 4);
    Pow2Sum(8, 4);
    Pow2Sum(8, 10);
    Pow2Sum(10, 10);
    Pow2Sum(10, 12);
    Pow2Sum(20, 8);
  }

  /** A byte cut out of a number holds eight of its bits. */
  lemma SliceBits(v: nat, p: nat, i: nat, j: nat)
    requires p == Pow2(i) && j < 8
    ensures v / p >= 0 && Bit(v / p % 256, j) == Bit(v, i + j)
  {
    SmallPowers();
    BitOfSlice(v, i, 8, j);
  }

  lemma MiddleBits(n: nat, m: nat, j: nat)
    requires j < 8
    ensures Bit(n % 16 * 16 + m / 0x4_0000 % 16, j) == if j < 4 then Bit(m, 18 + j) else Bit(n, j - 4)
  {
    SmallPowers();
    BitOfJoined(n % 16, m / 0x4_0000 % 16, 4, j);
    if j < 4 {
      BitOfSlice(m, 18, 4, j);
    } else {
      BitOfMod(n, 4, j - 4);
    }
  }

  lemma LastBits(m: nat, j: nat)
    requires j < 8
    ensures Bit(m % 4 * 64, j) == if j < 6 then 0 else Bit(m, j - 6)
  {
    SmallPowers();
    BitOfJoined(m % 4, 0, 6, j);
    if j < 6 {
      ZeroBit(j);
    } else {
      BitOfMod(m, 2, j - 6);
    }
  }

  lemma {:induction false} ZeroBit(j: nat)
    ensures Bit(0, j) == 0
  {
    if j > 0 {
      ZeroBit(j - 1);
    }
  }

  lemma LayoutAt(n: nat, m: nat, k: nat)
    requires k < 8 * MSG_BYTES
    ensures Layout(n, m)[k] == if k < 28 then Bit(n, 27 - k) else if k < 50 then Bit(m, 49 - k) else 0
  {
    hide Bit;
  }

  /** The bits of the bytes that hold `n` alone. */
  lemma FirstBytes(n: nat, m: nat, j: nat)
    requires j < 8
    ensures var p := Packed(n, m);
            Bit(p[0], j) == Bit(n, 20 + j) && Bit(p[1], j) == Bit(n, 12 + j) && Bit(p[2], j) == Bit(n, 4 + j)
  {
    SmallPowers();
    hide Pow2;
    hide Bit;
    SliceBits(n, 0x10_0000, 20, j);
    SliceBits(n, 0x1000, 12, j);
    SliceBits(n, 16, 4, j);
  }

  /** The bits of the bytes that hold part of `m`. */
  lemma LaterBytes(n: nat, m: nat, j: nat)
    requires j < 8
    ensures var p := Packed(n, m);
            Bit(p[3], j) == (if j < 4 then Bit(m, 18 + j) else Bit(n, j - 4)) &&
            Bit(p[4], j) == Bit(m, 10 + j) && Bit(p[5], j) == Bit(m, 2 + j) &&
            Bit(p[6], j) == if j < 6 then 0 else Bit(m, j - 6)
  {
    SmallPowers();
    hide Pow2;
    hide Bit;
    MiddleBits(n, m, j);
    SliceBits(m, 1024, 10, j);
    SliceBits(m, 4, 2, j);
    LastBits(m, j);
  }

  lemma PackedAt(n: nat, m: nat, i: nat, j: nat)
    requires i < MSG_BYTES && j < 8
    ensures Bit(Packed(n, m)[i], j) == Layout(n, m)[8 * i + 7 - j]
  {
    hide Layout;
    hide Bit;
    assert i >= 7 ==> Packed(n, m)[i] == 0;
    LayoutAt(n, m, 8 * i + 7 - j);
    FirstBytes(n, m, j);
    LaterBytes(n, m, j);
    ZeroBit(j);
    hide Packed;
  }

  /** The packed bytes are the message bits, eight at a time. */
  lemma PackedLayout(n: nat, m: nat)
    ensures AllBits(Packed(n, m)) == Layout(n, m)
  {
    hide Packed;
    hide Layout;
    hide Bit;
    forall k | 0 <= k < 8 * MSG_BYTES
      ensures AllBits(Packed(n, m))[k] == Layout(n, m)[k]
    {
      PackedAt(n, m, k / 8, 7 - k % 8);
    }
  }

  method PackMessage(n: nat, m: nat, packed: array<byte>)
    requires packed.Length == MSG_BYTES
    modifies packed
    ensures AllBits(packed[..]) == ValueBits(n, 28) + ValueBits(m, 22) + Repeat(0 as bit, 38)
    ensures packed[..] == Packed(n, m)
  {
    PackedLayout(n, m);
    for i := 0 to MSG_BYTES
      invariant forall k :: 0 <= k < i ==> packed[k] == 0
    {
      packed[i] := 0;
    }
    packed[0] := (n / 0x10_0000) % 256;
    packed[1] := (n / 0x1000) % 256;
    packed[2] := (n / 16) % 256;
    packed[3] := (n % 16) * 16 + (m / 0x4_0000) % 16;
    packed[4] := (m / 1024) % 256;
    packed[5] := (m / 4) % 256;
    packed[6] := (m % 4) * 64;
    assert packed[..] == Packed(n, m);
  }

  // ------------------------------------------------------------ the encoder

  function Symbols(m: Message): (symbols: seq<byte>)
    requires |m.grid| == 4 && EncodeGridPower(m.grid, m.power) >= 0
  {
    ChannelSymbols(AllBits(Packed(EncodeCallsign(m.callsign), EncodeGridPower(m.grid, m.power))))
  }

  /** Returns 0 and fills `symbols`, or returns -1. */
  method Encode(m: Message, symbols: array<byte>) returns (ret: int)
    requires |m.grid| == 4 && symbols.Length == SYMBOL_COUNT
    modifies symbols
    ensures EncodeGridPower(m.grid, m.power) < 0 ==> ret == -1 && symbols[..] == old(symbols[..])
    ensures EncodeGridPower(m.grid, m.power) >= 0 ==> ret == 0 && symbols[..] == Symbols(m)
  {
    hide Convolve;
    hide Interleaved;
    hide EncodePadded;
    hide EncodeGridPower;
    hide Packed;
    hide AllBits;
    hide Padded;
    var padded := new char[7];
    PadCallsign(m.callsign, padded);
    var n := EncodePadded(padded[..6]);
    var locator := EncodeGridPower(m.grid, m.power);
    if locator < 0 {
      return -1;
    }
    var packed := new byte[MSG_BYTES];
    PackMessage(n, locator, packed);
    var convolved := new byte[SYMBOL_COUNT];
    ConvolveInto(packed, convolved);
    ghost var coded := Convolve(AllBits(Packed(n, locator)))[..SYMBOL_COUNT];
    assert forall k :: 0 <= k < SYMBOL_COUNT ==> convolved[k] == convolved[..][k] == coded[k];
    var interleaved := new byte[SYMBOL_COUNT];
    InterleaveInto(convolved, interleaved);
    assert forall k :: 0 <= k < SYMBOL_COUNT ==> interleaved[k] == interleaved[..][k] == Interleaved(coded)[k];
    MergeSync(interleaved, symbols);
    return 0;
  }

  const SYMBOL_US: nat := 682667
  const TONE_SPACING: real := 1.4648

  /** One symbol as the transmit engine takes it. */
  datatype Tone = Tone(offset: real, durationUs: nat, on: bool)

  /** The symbols of a sequence, their number and the place to start at. */
  datatype Transmission = Transmission(tones: array<Tone>, total: nat, currentIndex: nat)

  function ToneOf(symbol: byte): Tone {
    Tone(symbol as real * TONE_SPACING, SYMBOL_US, true)
  }

  /** The validated entry point: the tones of a WSPR transmission, or None for error -1. */
  method Generate(m: Message) returns (r: Option<Transmission>)
    ensures r.Some? <==> Valid(m)
    ensures r.Some? ==>
      |m.grid| == 4 && EncodeGridPower(m.grid, m.power) >= 0 &&
      r.value.total == r.value.tones.Length == SYMBOL_COUNT && r.value.currentIndex == 0 &&
      forall i :: 0 <= i < SYMBOL_COUNT ==>
        r.value.tones[i] == Tone(Symbols(m)[i] as real * 1.4648, 682667, true)
  {
    hide Symbols;
    hide EncodeGridPower;
    if !ValidCallsign(m.callsign) || !ValidGrid(m.grid) || m.power !in VALID_POWERS {
      return None;
    }
    var symbols := new byte[SYMBOL_COUNT];
    var ret := Encode(m, symbols);
    FieldRange(m);
    assert symbols[..] == Symbols(m);
    var tones := new Tone[SYMBOL_COUNT](_ => Tone(0.0, 0, false));
    for i := 0 to SYMBOL_COUNT
      invariant symbols[..] == Symbols(m)
      invariant forall k :: 0 <= k < i ==> tones[k] == ToneOf(Symbols(m)[k])
    {
      assert symbols[i] == Symbols(m)[i];
      tones[i] := Tone(symbols[i] as real * TONE_SPACING, SYMBOL_US, true);
    }
    return Some(Transmission(tones, SYMBOL_COUNT, 0));
  }

  lemma PowerRange(power: int)
    requires power in VALID_POWERS
    ensures 0 <= power <= 60
  {
  }

  lemma FieldRange(m: Message)
    requires Valid(m)
    ensures 0 <= EncodeGridPower(m.grid, m.power) < 0x40_0000
  {
    PowerRange(m.power);
  }

  // ------------------------------------------------------------ the decoder

  function CallsignChar(v: int): char
    requires 0 <= v <= 36
  {
    if v < 10 then (('0' as int) + v) as char
    else if v < 36 then (('A' as int) + v - 10) as char
    else ' '
  }

  /** Mixed-radix division of the 28-bit field; None for values no callsign can have. */
  function DecodeCallsign(n: nat): (r: Option<string>)
    ensures r.Some? ==> StandardShape(r.value)
  {
    var q5 := n / 27;
    var q4 := q5 / 27;
    var q3 := q4 / 27;
    var q2 := q3 / 10;
    var q1 := q2 / 36;
    if q1 > 36 then None else
      Some([CallsignChar(q1), CallsignChar(q2 % 36), CallsignChar(q3 % 10),
            CallsignChar(q4 % 27 + 10), CallsignChar(q5 % 27 + 10), CallsignChar(n % 27 + 10)])
  }

  function DecodeGrid(m: nat): string
    requires m < 32400
  {
    var east, north := m % 180, 179 - m / 180;
    [CallsignChar(north / 10 + 10), CallsignChar(east / 10 + 10), CallsignChar(north % 10), CallsignChar(east % 10)]
  }

  function ByteAt(bits: seq<bit>, i: nat): (b: byte)
    requires 8 * i + 8 <= |bits|
  {
    Pow2Values();
    BitsValue(bits[8 * i..8 * i + 8])
  }

  /** The two fields of the seven packed bytes that carry them. */
  function Unpack(p0: int, p1: int, p2: int, p3: int, p4: int, p5: int, p6: int): (int, int) {
    (p0 * 0x10_0000 + p1 * 0x1000 + p2 * 16 + p3 / 16, (p3 % 16) * 0x4_0000 + p4 * 1024 + p5 * 4 + p6 / 64)
  }

  /** The receiver: channel decoding, unpacking and mixed-radix division. */
  function Decode(symbols: seq<byte>): Option<Message>
    requires |symbols| == SYMBOL_COUNT
    requires forall i :: 0 <= i < SYMBOL_COUNT ==> symbols[i] < 4
  {
    var bits := DecodeChannel(symbols);
    var (n, m) := Unpack(ByteAt(bits, 0), ByteAt(bits, 1), ByteAt(bits, 2), ByteAt(bits, 3),
                         ByteAt(bits, 4), ByteAt(bits, 5), ByteAt(bits, 6));
    DecodeFields(n, m)
  }

  function DecodeFields(n: nat, m: nat): Option<Message> {
    var callsign := DecodeCallsign(n);
    if callsign.None? || m / 128 >= 32400 then None else
      Some(Message(callsign.value, DecodeGrid(m / 128), m % 128 - 64))
  }

  lemma CallsignCharRoundTrip(c: char)
    requires IsUpper(c) || IsDigit(c) || c == ' '
    ensures 0 <= CallsignCharValue(c) <= 36 && CallsignChar(CallsignCharValue(c)) == c
    ensures IsDigit(c) <==> CallsignCharValue(c) < 10
    ensures c == ' ' <==> CallsignCharValue(c) == 36
  {
  }

  /** The mixed-radix value of the six characters, before any reduction modulo 2^32. */
  function CallsignNumber(v0: int, v1: int, v2: int, w3: int, w4: int, w5: int): int {
    ((((v0 * 36 + v1) * 10 + v2) * 27 + w3) * 27 + w4) * 27 + w5
  }

  /** One digit of the mixed-radix number: the quotient, the digit, and the bound that it keeps. */
  lemma RadixDigit(q: nat, d: nat, base: nat, limit: nat)
    requires d < base && q < limit
    ensures 0 <= q * base + d < limit * base && (q * base + d) / base == q && (q * base + d) % base == d
  {
    DivMod(q, d, base);
    HornerBound(q, d, base, limit);
    MulNat(q, base);
  }

  lemma DecodeNumber(v0: nat, v1: nat, v2: nat, w3: nat, w4: nat, w5: nat)
    requires v0 <= 36 && v1 < 36 && v2 < 10 && w3 < 27 && w4 < 27 && w5 < 27
    ensures 0 <= CallsignNumber(v0, v1, v2, w3, w4, w5) < 0x1000_0000
    ensures DecodeCallsign(CallsignNumber(v0, v1, v2, w3, w4, w5)) ==
            Some([CallsignChar(v0), CallsignChar(v1), CallsignChar(v2),
                  CallsignChar(w3 + 10), CallsignChar(w4 + 10), CallsignChar(w5 + 10)])
  {
    hide CallsignChar;
    RadixDigit(v0, v1, 36, 37);
    var n1 := v0 * 36 + v1;
    RadixDigit(n1, v2, 10, 1332);
    var n2 := n1 * 10 + v2;
    RadixDigit(n2, w3, 27, 13320);
    var n3 := n2 * 27 + w3;
    RadixDigit(n3, w4, 27, 359640);
    var n4 := n3 * 27 + w4;
    RadixDigit(n4, w5, 27, 9710280);
    assert CallsignNumber(v0, v1, v2, w3, w4, w5) == n4 * 27 + w5;
    hide CallsignNumber;
  }

  lemma U32Small(x: int)
    requires 0 <= x < TWO_32
    ensures U32(x) == x
  {
  }

  /** In range no step of the accumulator wraps. */
  lemma NoWrap(v0: nat, v1: nat, v2: nat, w3: nat, w4: nat, w5: nat)
    requires v0 <= 36 && v1 < 36 && v2 < 10 && w3 < 27 && w4 < 27 && w5 < 27
    ensures U32(U32(U32(U32(U32(v0 * 36 + v1) * 10 + v2) * 27 + w3) * 27 + w4) * 27 + w5) ==
            CallsignNumber(v0, v1, v2, w3, w4, w5)
  {
    hide U32;
    U32Small(v0 * 36 + v1);
    U32Small((v0 * 36 + v1) * 10 + v2);
    U32Small(((v0 * 36 + v1) * 10 + v2) * 27 + w3);
    U32Small((((v0 * 36 + v1) * 10 + v2) * 27 + w3) * 27 + w4);
    U32Small(((((v0 * 36 + v1) * 10 + v2) * 27 + w3) * 27 + w4) * 27 + w5);
  }

  lemma EncodePaddedExact(p: string)
    requires StandardShape(p)
    ensures EncodePadded(p) < 0x1000_0000
    ensures DecodeCallsign(EncodePadded(p)) == Some(p)
  {
    hide DecodeCallsign;
    hide CallsignChar;
    hide U32;
    CallsignCharRoundTrip(p[0]);
    CallsignCharRoundTrip(p[1]);
    CallsignCharRoundTrip(p[2]);
    CallsignCharRoundTrip(p[3]);
    CallsignCharRoundTrip(p[4]);
    CallsignCharRoundTrip(p[5]);
    var v0, v1, v2 := CallsignCharValue(p[0]), CallsignCharValue(p[1]), CallsignCharValue(p[2]);
    var w3, w4, w5 := CallsignCharValue(p[3]) - 10, CallsignCharValue(p[4]) - 10, CallsignCharValue(p[5]) - 10;
    hide CallsignCharValue;
    NoWrap(v0, v1, v2, w3, w4, w5);
    hide CallsignNumber;
    DecodeNumber(v0, v1, v2, w3, w4, w5);
    assert p == [p[0], p[1], p[2], p[3], p[4], p[5]];
  }

  lemma GridPowerExact(grid: string, power: int)
    requires ValidGrid(grid) && 0 <= power <= 60
    ensures var m := EncodeGridPower(grid, power);
            0 <= m && m / 128 < 32400 && DecodeGrid(m / 128) == Upper(grid) && m % 128 - 64 == power
  {
    var loc1, loc2 := GridIndex(grid[0]), GridIndex(grid[1]);
    var loc3, loc4 := Digit(grid[2]), Digit(grid[3]);
    var north, east := 10 * loc1 + loc3, 10 * loc2 + loc4;
    var place := (179 - north) * 180 + east;
    assert EncodeGridPower(grid, power) == place * 128 + power + 64;
    DivMod(place, power + 64, 128);
    DivMod(179 - north, east, 180);
    DivMod(loc1, loc3, 10);
    DivMod(loc2, loc4, 10);
    assert DecodeGrid(place) == Upper(grid);
  }

  lemma ByteRecovered(packed: seq<byte>, i: nat)
    requires |packed| == MSG_BYTES && i < 7
    ensures ByteAt(AllBits(packed)[..CODED_BITS], i) == packed[i]
  {
    hide BitsValue;
    var bits := AllBits(packed);
    assert bits[..CODED_BITS][8 * i..8 * i + 8] == bits[8 * i..8 * i + 8];
    ByteFromBits(packed, i);
  }

  lemma UnpackPacked(n: nat, m: nat)
    requires m < 0x40_0000
    ensures var p := Packed(n, m);
      Unpack(p[0], p[1], p[2], p[3], p[4], p[5], p[6]) == (n % 0x1000_0000, m)
  {
    DivDiv(n, 16, 0x100);
    DivDiv(n, 0x1000, 0x100);
    DivDiv(n, 0x10_0000, 0x100);
    DivDiv(m, 4, 0x100);
    DivDiv(m, 1024, 0x100);
    DivMod(n % 16, (m / 0x4_0000) % 16, 16);
    DivMod(m % 4, 0, 64);
  }

  /** The receiver gets the two packed fields back, the first one modulo 2^28. */
  lemma DecodePacked(n: nat, m: nat)
    requires m < 0x40_0000
    ensures var symbols := ChannelSymbols(AllBits(Packed(n, m)));
      (forall i :: 0 <= i < SYMBOL_COUNT ==> symbols[i] < 4) &&
      Decode(symbols) == DecodeFields(n % 0x1000_0000, m)
  {
    hide AllBits;
    hide ChannelSymbols;
    hide DecodeChannel;
    hide ByteAt;
    hide DecodeFields;
    var packed := Packed(n, m);
    DecodeChannelSymbols(AllBits(packed));
    ByteRecovered(packed, 0);
    ByteRecovered(packed, 1);
    ByteRecovered(packed, 2);
    ByteRecovered(packed, 3);
    ByteRecovered(packed, 4);
    ByteRecovered(packed, 5);
    ByteRecovered(packed, 6);
    hide Packed;
    UnpackPacked(n, m);
  }

  /** What the receiver makes of any valid message. */
  lemma DecodeSymbols(m: Message)
    requires Valid(m)
    ensures EncodeGridPower(m.grid, m.power) >= 0
    ensures forall i :: 0 <= i < SYMBOL_COUNT ==> Symbols(m)[i] < 4
    ensures Decode(Symbols(m)) ==
      var callsign := DecodeCallsign(EncodeCallsign(m.callsign) % 0x1000_0000);
      if callsign.None? then None else Some(Message(callsign.value, Upper(m.grid), m.power))
  {
    hide EncodeCallsign;
    hide DecodeCallsign;
    hide ChannelSymbols;
    hide Decode;
    PowerRange(m.power);
    FieldRange(m);
    GridPowerExact(m.grid, m.power);
    hide EncodeGridPower;
    DecodePacked(EncodeCallsign(m.callsign), EncodeGridPower(m.grid, m.power));
  }

  /** WSPR is invertible end to end exactly for the callsigns whose padded form has the standard shape. */
  lemma Invertible(m: Message)
    requires Valid(m)
    ensures EncodeGridPower(m.grid, m.power) >= 0
    ensures forall i :: 0 <= i < SYMBOL_COUNT ==> Symbols(m)[i] < 4
    ensures Decode(Symbols(m)) == Some(Message(Padded(m.callsign), Upper(m.grid), m.power))
            <==> StandardShape(Padded(m.callsign))
  {
    hide Decode;
    hide Symbols;
    hide DecodeCallsign;
    hide EncodePadded;
    DecodeSymbols(m);
    if StandardShape(Padded(m.callsign)) {
      EncodePaddedExact(Padded(m.callsign));
    }
  }

  // -------------------------------------------- how far messages are apart

  /** Two layouts are equal exactly when the stored fields are: the low 28 bits of one, all of the other. */
  lemma LayoutInjective(n: nat, m: nat, n': nat, m': nat)
    requires m < 0x40_0000 && m' < 0x40_0000
    ensures Layout(n, m) == Layout(n', m') <==> n % 0x1000_0000 == n' % 0x1000_0000 && m == m'
  {
    SmallPowers();
    hide Pow2;
    if n % 0x1000_0000 == n' % 0x1000_0000 && m == m' {
      ValueBitsOfMod(n, 28);
      ValueBitsOfMod(n', 28);
    } else {
      BitsValueOfValueBits(n, 28);
      BitsValueOfValueBits(n', 28);
      BitsValueOfValueBits(m, 22);
      BitsValueOfValueBits(m', 22);
      LayoutParts(n, m);
      LayoutParts(n', m');
      hide Layout;
      hide ValueBits;
      hide BitsValue;
    }
  }

  lemma LayoutParts(n: nat, m: nat)
    ensures Layout(n, m)[..28] == ValueBits(n, 28) && Layout(n, m)[28..50] == ValueBits(m, 22)
    ensures Layout(n, m)[50..] == Repeat(0 as bit, 38)
  {
    hide ValueBits;
    assert Layout(n, m) == ValueBits(n, 28) + (ValueBits(m, 22) + Repeat(0 as bit, 38));
  }

  /** Packed messages with different stored fields are sent at least four symbols apart. */
  lemma PackedDistance(n: nat, m: nat, n': nat, m': nat)
    requires m < 0x40_0000 && m' < 0x40_0000
    requires n % 0x1000_0000 != n' % 0x1000_0000 || m != m'
    ensures |Differences(ChannelSymbols(AllBits(Packed(n, m))), ChannelSymbols(AllBits(Packed(n', m'))))| >= 4
  {
    hide ChannelSymbols;
    hide Differences;
    PackedLayout(n, m);
    PackedLayout(n', m');
    LayoutInjective(n, m, n', m');
    LayoutParts(n, m);
    LayoutParts(n', m');
    hide AllBits;
    hide Packed;
    hide Layout;
    MinimumDistance(Layout(n, m), Layout(n', m'));
  }

  /** The locator and power field tells the grid, up to letter case, and the power. */
  lemma GridPowerInjective(m: Message, m': Message)
    requires Valid(m) && Valid(m')
    ensures EncodeGridPower(m.grid, m.power) == EncodeGridPower(m'.grid, m'.power) <==>
            Upper(m.grid) == Upper(m'.grid) && m.power == m'.power
  {
    PowerRange(m.power);
    PowerRange(m'.power);
    GridPowerExact(m.grid, m.power);
    GridPowerExact(m'.grid, m'.power);
    hide DecodeGrid;
    if Upper(m.grid) == Upper(m'.grid) {
      assert forall i :: 0 <= i < 4 ==> ToUpper(m.grid[i]) == Upper(m.grid)[i] == Upper(m'.grid)[i];
    }
  }

  /** The messages that the 50 stored bits cannot tell apart. */
  predicate SameFields(m: Message, m': Message) {
    EncodeCallsign(m.callsign) % 0x1000_0000 == EncodeCallsign(m'.callsign) % 0x1000_0000 &&
    Upper(m.grid) == Upper(m'.grid) && m.power == m'.power
  }

  /** Two valid messages are sent as the same symbols exactly when their stored fields agree; otherwise they
      are sent at least four symbols apart. */
  lemma SymbolsExact(m: Message, m': Message)
    requires Valid(m) && Valid(m')
    ensures EncodeGridPower(m.grid, m.power) >= 0 && EncodeGridPower(m'.grid, m'.power) >= 0
    ensures Symbols(m) == Symbols(m') <==> SameFields(m, m')
    ensures Symbols(m) != Symbols(m') ==> |Differences(Symbols(m), Symbols(m'))| >= 4
  {
    hide EncodeCallsign;
    hide ChannelSymbols;
    FieldRange(m);
    FieldRange(m');
    GridPowerInjective(m, m');
    hide EncodeGridPower;
    hide Valid;
    var n, n' := EncodeCallsign(m.callsign), EncodeCallsign(m'.callsign);
    var g, g' := EncodeGridPower(m.grid, m.power), EncodeGridPower(m'.grid, m'.power);
    if SameFields(m, m') {
      PackedLayout(n, g);
      PackedLayout(n', g');
      LayoutInjective(n, g, n', g');
    } else {
      PackedDistance(n, g, n', g');
      NoDifference(Symbols(m), Symbols(m'));
    }
  }

  lemma NoDifference(s: seq<byte>, t: seq<byte>)
    requires |s| == |t|
    ensures s == t ==> |Differences(s, t)| == 0
  {
  }

  /** Among standard-shape callsigns only those with the same six padded characters collide, and among those
      that padding does not cut the same symbols mean the same message. */
  lemma StandardCallsDistinct(m: Message, m': Message)
    requires Valid(m) && Valid(m')
    requires StandardShape(Padded(m.callsign)) && StandardShape(Padded(m'.callsign))
    ensures EncodeGridPower(m.grid, m.power) >= 0 && EncodeGridPower(m'.grid, m'.power) >= 0
    ensures Symbols(m) == Symbols(m') <==>
            Padded(m.callsign) == Padded(m'.callsign) && Upper(m.grid) == Upper(m'.grid) && m.power == m'.power
    ensures !Truncated(m.callsign) && !Truncated(m'.callsign) ==>
            (Symbols(m) == Symbols(m') <==>
             Upper(m.callsign) == Upper(m'.callsign) && Upper(m.grid) == Upper(m'.grid) && m.power == m'.power)
  {
    hide Symbols;
    hide EncodePadded;
    hide DecodeCallsign;
    hide Strip;
    SymbolsExact(m, m');
    EncodePaddedExact(Padded(m.callsign));
    EncodePaddedExact(Padded(m'.callsign));
    PaddingReversible(m.callsign);
    PaddingReversible(m'.callsign);
    UpperPadded(m.callsign, m'.callsign);
    hide Padded;
  }

  lemma UpperKinds(c: char)
    ensures IsDigit(ToUpper(c)) <==> IsDigit(c)
    ensures IsUpper(ToUpper(c)) <==> IsAlpha(c)
    ensures ToUpper(c) == '/' <==> c == '/'
  {
  }

  lemma UpperPadded(callsign: string, other: string)
    ensures Upper(callsign) == Upper(other) ==>
            Padded(callsign) == Padded(other) && (Truncated(callsign) <==> Truncated(other))
  {
    if Upper(callsign) == Upper(other) {
      assert |callsign| == |Upper(callsign)| == |other|;
      forall i | 0 <= i < |callsign|
        ensures (IsAlpha(callsign[i]) <==> IsAlpha(other[i])) && (IsDigit(callsign[i]) <==> IsDigit(other[i]))
      {
        assert ToUpper(callsign[i]) == Upper(callsign)[i] == Upper(other)[i] == ToUpper(other[i]);
        UpperKinds(callsign[i]);
        UpperKinds(other[i]);
      }
    }
  }

  /** A callsign that padding cuts shares its symbols with every other that differs in its last character only. */
  lemma CutCallsCollide(callsign: string, other: string)
    requires ValidCallsign(callsign) && ValidCallsign(other) && Truncated(callsign) && Truncated(other)
    ensures |callsign| == |other| == 6
    ensures Padded(callsign) == Padded(other) <==> Upper(callsign)[..5] == Upper(other)[..5]
  {
    assert Padded(callsign)[1..] == Upper(callsign)[..5] && Padded(callsign)[0] == ' ';
    assert Padded(other)[1..] == Upper(other)[..5] && Padded(other)[0] == ' ';
    assert Padded(callsign) == " " + Padded(callsign)[1..] && Padded(other) == " " + Padded(other)[1..];
  }

  /** K1ABCD and K1ABCE, both valid, are sent as K1ABC. */
  lemma CutCallSent(grid: string, power: int)
    requires ValidGrid(grid) && power in VALID_POWERS
    ensures var m, m' := Message("K1ABCD", grid, power), Message("K1ABCE", grid, power);
            Valid(m) && Valid(m') && StandardShape(Padded(m.callsign)) && Padded(m.callsign) == " K1ABC" &&
            EncodeGridPower(grid, power) >= 0 && Symbols(m) == Symbols(m') && Upper(m.callsign) != Upper(m'.callsign)
  {
    var m, m' := Message("K1ABCD", grid, power), Message("K1ABCE", grid, power);
    assert Valid(m) && Valid(m');
    assert Upper("K1ABCD") == "K1ABCD" && Upper("K1ABCE") == "K1ABCE";
    assert Padded("K1ABCD") == " K1ABC" == Padded("K1ABCE");
    assert "K1ABCD"[5] != "K1ABCE"[5];
    hide ChannelSymbols;
    hide EncodePadded;
    FieldRange(m);
    hide EncodeGridPower;
  }

  /** The worked example K1ABC FN42 37. */
  lemma Example()
    ensures EncodeCallsign("K1ABC") == 259047992 && EncodeGridPower("FN42", 37) == 2896997
  {
    assert Padded("K1ABC") == " K1ABC" by {
      assert Upper("K1ABC") == "K1ABC";
    }
    GridPowerIs("FN42", 37);
    hide U32;
    NoWrap(36, 20, 1, 0, 1, 2);
  }

  /** A stroke in front is packed like the blank that padding puts there. */
  lemma StrokeCollides(callsign: string)
    requires ValidCallsign(callsign) && NeedsLeadingSpace(callsign) && |callsign| <= 5
    ensures ValidCallsign("/" + callsign) && EncodeCallsign("/" + callsign) == EncodeCallsign(callsign)
  {
    var p, q := Padded(callsign), Padded("/" + callsign);
    var u := Upper(callsign);
    assert Upper("/" + callsign) == "/" + u;
    assert p == " " + u + Repeat(' ', 5 - |u|);
    assert q == "/" + u + Repeat(' ', 5 - |u|);
    assert p[1..] == q[1..];
    assert p[1] == p[1..][0] == q[1] && p[2] == p[1..][1] == q[2];
    assert p[3..] == p[1..][2..] == q[3..];
    SameWeightCollides(p, q);
  }

  // ------------------------------------------------------ what padding loses

  function Strip(s: string): string {
    if s != [] && s[0] == ' ' then Strip(s[1..])
    else if s != [] && s[|s| - 1] == ' ' then Strip(s[..|s| - 1])
    else s
  }

  lemma {:induction false} StripTrailing(s: string, n: nat)
    requires s == [] || (s[0] != ' ' && s[|s| - 1] != ' ')
    ensures Strip(s + Repeat(' ', n)) == s
  {
    var t := s + Repeat(' ', n);
    if n == 0 {
      assert t == s;
    } else if s == [] {
      assert t[1..] == s + Repeat(' ', n - 1);
      StripTrailing(s, n - 1);
    } else {
      assert t[..|t| - 1] == s + Repeat(' ', n - 1);
      StripTrailing(s, n - 1);
    }
  }

  /** The padding alone loses nothing unless it cuts off a character. */
  lemma PaddingReversible(callsign: string)
    requires ValidCallsign(callsign)
    ensures Strip(Padded(callsign)) == Upper(callsign) <==> !Truncated(callsign)
  {
    var u := Upper(callsign);
    var p := Padded(callsign);
    if !Truncated(callsign) {
      if NeedsLeadingSpace(callsign) {
        assert p[1..] == u + Repeat(' ', 5 - |u|);
        StripTrailing(u, 5 - |u|);
      } else {
        assert p == u + Repeat(' ', 6 - |u|);
        StripTrailing(u, 6 - |u|);
      }
    } else {
      assert p[1..] == u[..5];
      assert u[..5] == u[..5] + Repeat(' ', 0);
      StripTrailing(u[..5], 0);
    }
  }

  /** The receiver's message, with the blanks around the callsign dropped. */
  function Heard(symbols: seq<byte>): Option<Message>
    requires |symbols| == SYMBOL_COUNT
    requires forall i :: 0 <= i < SYMBOL_COUNT ==> symbols[i] < 4
  {
    var m := Decode(symbols);
    if m.None? then None else Some(m.value.(callsign := Strip(m.value.callsign)))
  }

  /** What a receiver hears is the message as it was asked for, exactly when the padded callsign has the standard
      shape and padding cut nothing off. */
  lemma HeardExact(m: Message)
    requires Valid(m)
    ensures EncodeGridPower(m.grid, m.power) >= 0
    ensures forall i :: 0 <= i < SYMBOL_COUNT ==> Symbols(m)[i] < 4
    ensures Heard(Symbols(m)) == Some(Message(Upper(m.callsign), Upper(m.grid), m.power))
            <==> StandardShape(Padded(m.callsign)) && !Truncated(m.callsign)
  {
    hide Decode;
    hide Symbols;
    hide DecodeCallsign;
    hide EncodePadded;
    hide Strip;
    hide Padded;
    hide StandardShape;
    hide Truncated;
    DecodeSymbols(m);
    PaddingReversible(m.callsign);
    var p := Padded(m.callsign);
    if StandardShape(p) {
      EncodePaddedExact(p);
    } else {
      var n := EncodePadded(p) % 0x1000_0000;
      if DecodeCallsign(n).Some? && Strip(DecodeCallsign(n).value) == Upper(m.callsign) {
        DecodedExact(n);
        NumbersDiffer(m.callsign, DecodeCallsign(n).value);
      }
    }
  }

  /** The decoder is undone by the encoder: what is decoded has the standard shape and is packed into the number. */
  lemma DecodedExact(n: nat)
    requires DecodeCallsign(n).Some?
    ensures StandardShape(DecodeCallsign(n).value) && EncodePadded(DecodeCallsign(n).value) == n
  {
    hide U32;
    var n4 := n / 27;
    var n3 := n4 / 27;
    var n2 := n3 / 27;
    var n1 := n2 / 10;
    var v0, v1, v2 := n1 / 36, n1 % 36, n2 % 10;
    var w3, w4, w5 := n3 % 27, n4 % 27, n % 27;
    NoWrap(v0, v1, v2, w3, w4, w5);
    CharOfValue(v0);
    CharOfValue(v1);
    CharOfValue(v2);
    CharOfValue(w3 + 10);
    CharOfValue(w4 + 10);
    CharOfValue(w5 + 10);
    hide CallsignChar;
    hide CallsignCharValue;
  }

  lemma CharOfValue(v: int)
    requires 0 <= v <= 36
    ensures var c := CallsignChar(v);
            CallsignCharValue(c) == v &&
            (IsDigit(c) <==> v < 10) && (IsUpper(c) <==> 10 <= v < 36) && (c == ' ' <==> v == 36)
  {
  }

  /** The weight of the first three characters. */
  function Weight(p: string): (x: int)
    requires |p| == 6
    ensures 0 <= x
  {
    CharValueRange(p[0]);
    CharValueRange(p[1]);
    CharValueRange(p[2]);
    (CallsignCharValue(p[0]) * 36 + CallsignCharValue(p[1])) * 10 + CallsignCharValue(p[2])
  }

  lemma U32Step(x: int, y: int)
    ensures U32(U32(x) * 27 + y) == U32(x * 27 + y)
  {
    var q := x / TWO_32;
    assert x == q * TWO_32 + U32(x);
    U32Shift(U32(x) * 27 + y, q * 27);
  }

  lemma U32Shift(x: int, k: int)
    ensures U32(x + k * TWO_32) == U32(x)
  {
    var q := x / TWO_32;
    DivModUnique(x + k * TWO_32, q + k, U32(x), TWO_32);
  }

  /** The last three characters add between -7570 and 19682 to the weight of the first three. */
  lemma PackedByWeight(p: string) returns (rest: int)
    requires |p| == 6
    ensures -7570 <= rest <= 19682
    ensures EncodePadded(p) == U32(Weight(p) * 19683 + rest)
  {
    CharValueRange(p[0]);
    CharValueRange(p[1]);
    CharValueRange(p[2]);
    CharValueRange(p[3]);
    CharValueRange(p[4]);
    CharValueRange(p[5]);
    var x := Weight(p);
    var w3, w4, w5 := CallsignCharValue(p[3]) - 10, CallsignCharValue(p[4]) - 10, CallsignCharValue(p[5]) - 10;
    rest := (w3 * 27 + w4) * 27 + w5;
    hide U32;
    hide CallsignCharValue;
    U32Small(CallsignCharValue(p[0]) * 36 + CallsignCharValue(p[1]));
    U32Small(x);
    WrappedOnce(x, w3, w4, w5);
  }

  /** Cutting to 32 bits once is enough. */
  lemma WrappedOnce(x: int, w3: int, w4: int, w5: int)
    ensures U32(U32(U32(U32(x) * 27 + w3) * 27 + w4) * 27 + w5) == U32(x * 19683 + ((w3 * 27 + w4) * 27 + w5))
  {
    hide U32;
    U32Step(x, w3);
    U32Step(x * 27 + w3, w4);
    U32Step((x * 27 + w3) * 27 + w4, w5);
  }

  lemma {:induction false} StripLeavesTrailing(s: string)
    requires s != [] && s[0] != ' '
    ensures |Strip(s)| <= |s| && s == Strip(s) + Repeat(' ', |s| - |Strip(s)|)
  {
    var n := |s| - 1;
    if s[n] == ' ' {
      StripLeavesTrailing(s[..n]);
      var t := Strip(s[..n]);
      assert s == s[..n] + " " && Repeat(' ', |s| - |t|) == Repeat(' ', n - |t|) + " ";
    }
  }

  lemma BlanksBehind(s: string, t: string, k: nat)
    requires |t| <= |s| && s == t + Repeat(' ', |s| - |t|) && k < |s| && s[k] != ' '
    ensures k < |t| && forall i :: 0 <= i <= k ==> s[i] == t[i]
  {
  }

  /** A callsign of the standard shape is a blank or nothing, what stripping leaves, and blanks. */
  lemma StrippedShape(q: string)
    requires StandardShape(q)
    ensures var t := Strip(q);
            var lead := if q[0] == ' ' then " " else "";
            2 <= |t| <= 6 - |lead| && q == lead + t + Repeat(' ', 6 - |lead| - |t|)
    ensures var t := Strip(q);
            if q[0] == ' ' then t[0] == q[1] && t[1] == q[2]
            else |t| >= 3 && t[0] == q[0] && t[1] == q[1] && t[2] == q[2]
  {
    var s := if q[0] == ' ' then q[1..] else q;
    var lead := if q[0] == ' ' then " " else "";
    assert q == lead + s && Strip(q) == Strip(s);
    StripLeavesTrailing(s);
    var t := Strip(s);
    hide Strip;
    var k := if q[0] == ' ' then 1 else 2;
    assert s[k] != ' ';
    BlanksBehind(s, t, k);
  }

  /** A different standard-shape text that reads as the callsign is packed into a different number. */
  lemma NumbersDiffer(callsign: string, q: string)
    requires ValidCallsign(callsign) && StandardShape(q) && Strip(q) == Upper(callsign) && q != Padded(callsign)
    ensures EncodePadded(q) != EncodePadded(Padded(callsign)) % 0x1000_0000
  {
    hide EncodePadded;
    hide Strip;
    var u, p := Upper(callsign), Padded(callsign);
    StrippedShape(q);
    UpperKinds(callsign[0]);
    UpperKinds(callsign[1]);
    if q[0] == ' ' && !NeedsLeadingSpace(callsign) {
      assert p[0] == u[0] && p[1] == u[1];
      DigitsWeighLess(p, q);
    } else if q[0] != ' ' && NeedsLeadingSpace(callsign) {
      assert p[0] == ' ' && p[1] == u[0] && p[2] == u[1];
      BlankWeighsMore(p, q);
    }
  }

  lemma DigitsWeighLess(p: string, q: string)
    requires |p| == 6 && IsDigit(p[0]) && IsDigit(p[1])
    requires StandardShape(q) && q[0] == ' ' && IsDigit(q[1])
    ensures EncodePadded(q) != EncodePadded(p) % 0x1000_0000
  {
    hide EncodePadded;
    hide U32;
    var restOfP := PackedByWeight(p);
    var restOfQ := PackedByWeight(q);
    CharValueRange(p[2]);
    WrappedWeight(Weight(p), restOfP);
    WrappedWeight(Weight(q), restOfQ);
  }

  lemma BlankWeighsMore(p: string, q: string)
    requires |p| == 6 && p[0] == ' ' && IsUpper(p[1]) && IsDigit(p[2])
    requires StandardShape(q) && q[0] != ' ' && IsDigit(q[1])
    ensures EncodePadded(q) != EncodePadded(p) % 0x1000_0000
  {
    hide EncodePadded;
    hide U32;
    var restOfP := PackedByWeight(p);
    var restOfQ := PackedByWeight(q);
    WrappedWeight(Weight(p), restOfP);
    WrappedWeight(Weight(q), restOfQ);
  }

  /** Only a weight of zero can wrap, and then to the top of the 32 bits. */
  lemma WrappedWeight(x: int, rest: int)
    requires 0 <= x < 13320 && -7570 <= rest <= 19682
    ensures var n := x * 19683 + rest;
            U32(n) == (if n >= 0 then n else n + TWO_32) &&
            U32(n) % 0x1000_0000 == (if n >= 0 then n else n + 0x1000_0000)
  {
  }

  lemma CharValueRange(c: char)
    ensures 0 <= CallsignCharValue(c) <= 36
  {
  }

  /** Only the combined weight of the first three characters reaches the packed number. */
  lemma SameWeightCollides(p: string, q: string)
    requires |p| == |q| == 6 && p[3..] == q[3..]
    requires (CallsignCharValue(p[0]) * 36 + CallsignCharValue(p[1])) * 10 + CallsignCharValue(p[2])
          == (CallsignCharValue(q[0]) * 36 + CallsignCharValue(q[1])) * 10 + CallsignCharValue(q[2])
    ensures EncodePadded(p) == EncodePadded(q)
  {
    hide U32;
    assert p[3] == p[3..][0] == q[3] && p[4] == p[3..][1] == q[4] && p[5] == p[3..][2] == q[5];
    CharValueRange(p[0]);
    CharValueRange(p[1]);
    CharValueRange(q[0]);
    CharValueRange(q[1]);
    hide CallsignCharValue;
    U32Small(CallsignCharValue(p[0]) * 36 + CallsignCharValue(p[1]));
    U32Small(CallsignCharValue(q[0]) * 36 + CallsignCharValue(q[1]));
  }

  lemma CallsignsCollide()
    ensures EncodeCallsign("AAAAAA") == EncodeCallsign("AB0AAA")
  {
    var p, q := "AAAAAA", "AB0AAA";
    assert Padded(p) == p;
    assert Padded(q) == q;
    hide EncodePadded;
    hide Padded;
    SameWeightCollides(p, q);
  }

  /** `ValidCallsign` is weaker than the standard shape: two valid callsigns are sent as the same symbols. */
  lemma ValidCallsignsCollide(grid: string, power: int)
    requires ValidGrid(grid) && power in VALID_POWERS
    ensures Valid(Message("AAAAAA", grid, power)) && Valid(Message("AB0AAA", grid, power))
    ensures EncodeGridPower(grid, power) >= 0
    ensures Symbols(Message("AAAAAA", grid, power)) == Symbols(Message("AB0AAA", grid, power))
  {
    hide ChannelSymbols;
    hide EncodeCallsign;
    var m, m' := Message("AAAAAA", grid, power), Message("AB0AAA", grid, power);
    assert Valid(m) && Valid(m');
    FieldRange(m);
    hide EncodeGridPower;
    CallsignsCollide();
  }
}
