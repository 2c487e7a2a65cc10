/** The 77-bit payload of the FT8 family: nine message layouts (src/modes/ftx.c:474-601) and the
    receiver that reads them back. */
module FtxPayload {
  import opened Machine
  import opened Bits
  import opened FtxBits
  import opened FtxText
  import opened FtxFields

  // ------------------------------------------------------------ field layouts

  /** A field: the value packed and the number of bits it takes. A message is its fields in order from
      bit 0, the type fields n3 and i3 last. */
  datatype Field = Field(value: nat, width: nat)

  function Flag(b: bool): Field {
    Field(if b then 1 else 0, 1)
  }

  /** The bit position of field `n`. */
  function Offset(fs: seq<Field>, n: nat): nat
    requires n <= |fs|
  {
    if n == 0 then 0 else Offset(fs, n - 1) + fs[n - 1].width
  }

  /** The first `n` fields side by side. */
  function FieldBits(fs: seq<Field>, n: nat): (bits: seq<bit>)
    requires n <= |fs|
    ensures |bits| == Offset(fs, n)
  {
    if n == 0 then [] else FieldBits(fs, n - 1) + ValueBits(fs[n - 1].value, fs[n - 1].width)
  }

  /** The 80-bit buffer after `n` fields: those fields, then zeros. */
  function Buffer(fs: seq<Field>, n: nat): (bits: seq<bit>)
    requires n <= |fs| && Offset(fs, n) <= 80
    ensures |bits| == 80
  {
    FieldBits(fs, n) + Repeat(0 as bit, 80 - Offset(fs, n))
  }

  lemma {:induction false} OffsetsGrow(fs: seq<Field>, m: nat, n: nat)
    requires m <= n <= |fs|
    ensures Offset(fs, m) <= Offset(fs, n)
  {
    if m < n {
      OffsetsGrow(fs, m, n - 1);
    }
  }

  /** Fields that tile bits 0..76, followed by three zero bits. */
  function Frame(fs: seq<Field>): (bits: seq<bit>)
    ensures |bits| == Offset(fs, |fs|) + 3
    ensures bits[|bits| - 3..] == [0, 0, 0]
  {
    FieldBits(fs, |fs|) + Repeat(0 as bit, 3)
  }

  lemma OffsetsUnrolled(fs: seq<Field>)
    ensures Offset(fs, 0) == 0
    ensures |fs| > 0 ==> Offset(fs, 1) == fs[0].width
    ensures |fs| > 1 ==> Offset(fs, 2) == Offset(fs, 1) + fs[1].width
    ensures |fs| > 2 ==> Offset(fs, 3) == Offset(fs, 2) + fs[2].width
    ensures |fs| > 3 ==> Offset(fs, 4) == Offset(fs, 3) + fs[3].width
    ensures |fs| > 4 ==> Offset(fs, 5) == Offset(fs, 4) + fs[4].width
    ensures |fs| > 5 ==> Offset(fs, 6) == Offset(fs, 5) + fs[5].width
    ensures |fs| > 6 ==> Offset(fs, 7) == Offset(fs, 6) + fs[6].width
    ensures |fs| > 7 ==> Offset(fs, 8) == Offset(fs, 7) + fs[7].width
  {
  }

  lemma OffsetStep(fs: seq<Field>, k: nat)
    requires k < |fs|
    ensures Offset(fs, k + 1) == Offset(fs, k) + fs[k].width
  {
  }

  /** Reading a field at its offset gives its value, cut to the field's width. */
  lemma {:induction false} ReadBack(fs: seq<Field>, n: nat, k: nat)
    requires k < n <= |fs|
    ensures Offset(fs, k + 1) <= Offset(fs, n)
    ensures BitsValue(FieldBits(fs, n)[Offset(fs, k)..Offset(fs, k + 1)]) == fs[k].value % Pow2(fs[k].width)
  {
    hide BitsValue;
    hide ValueBits;
    hide Pow2;
    OffsetsGrow(fs, k + 1, n);
    var part := FieldBits(fs, n - 1);
    if k == n - 1 {
      LastPart(part, ValueBits(fs[k].value, fs[k].width));
      BitsValueOfValueBits(fs[k].value, fs[k].width);
    } else {
      OffsetsGrow(fs, k + 1, n - 1);
      ReadBack(fs, n - 1, k);
      EarlierPart(part, ValueBits(fs[n - 1].value, fs[n - 1].width), Offset(fs, k), Offset(fs, k + 1));
    }
  }

  lemma LastPart(a: seq<bit>, b: seq<bit>)
    ensures (a + b)[|a|..|a| + |b|] == b
  {
  }

  lemma EarlierPart(a: seq<bit>, b: seq<bit>, i: nat, j: nat)
    requires i <= j <= |a|
    ensures (a + b)[i..j] == a[i..j]
  {
  }

  /** `f` is what a reader finds at bit `pos`. */
  predicate Reads(bits: seq<bit>, pos: nat, f: Field) {
    pos + f.width <= |bits| && At(bits, pos, f.width) == f.value % Pow2(f.width)
  }

  lemma FieldReads(fs: seq<Field>, bits: seq<bit>, k: nat)
    requires Offset(fs, |fs|) == 77 && bits == Frame(fs) && k < |fs|
    ensures Reads(bits, Offset(fs, k), fs[k])
  {
    hide BitsValue;
    hide FieldBits;
    hide Pow2;
    OffsetsGrow(fs, k + 1, |fs|);
    ReadBack(fs, |fs|, k);
    OffsetStep(fs, k);
    hide Offset;
    EarlierPart(FieldBits(fs, |fs|), Repeat(0 as bit, 3), Offset(fs, k), Offset(fs, k + 1));
  }

  lemma FieldsRead(fs: seq<Field>, bits: seq<bit>)
    requires |fs| >= 3 && Offset(fs, |fs|) == 77 && bits == Frame(fs)
    ensures Reads(bits, 0, fs[0])
    ensures Reads(bits, fs[0].width, fs[1])
    ensures Reads(bits, fs[0].width + fs[1].width, fs[2])
    ensures |fs| > 3 ==> Reads(bits, fs[0].width + fs[1].width + fs[2].width, fs[3])
    ensures |fs| > 4 ==> Reads(bits, fs[0].width + fs[1].width + fs[2].width + fs[3].width, fs[4])
    ensures |fs| > 5 ==>
      Reads(bits, fs[0].width + fs[1].width + fs[2].width + fs[3].width + fs[4].width, fs[5])
    ensures |fs| > 6 ==>
      Reads(bits, fs[0].width + fs[1].width + fs[2].width + fs[3].width + fs[4].width + fs[5].width, fs[6])
    ensures |fs| > 7 ==>
      Reads(bits, fs[0].width + fs[1].width + fs[2].width + fs[3].width + fs[4].width + fs[5].width + fs[6].width,
            fs[7])
  {
    hide Reads;
    hide Buffer;
    OffsetsUnrolled(fs);
    forall k | 0 <= k < |fs|
      ensures Reads(bits, Offset(fs, k), fs[k])
    {
      FieldReads(fs, bits, k);
    }
  }

  lemma Pow2Widths()
    ensures Pow2(1) == 2 && Pow2(2) == 4 && Pow2(3) == 8 && Pow2(4) == 16 && Pow2(5) == 32 && Pow2(7) == 128
    ensures Pow2(10) == 1024 && Pow2(11) == 2048 && Pow2(12) == 4096 && Pow2(13) == 0x2000 && Pow2(15) == 0x8000
    ensures Pow2(22) == 0x40_0000 && Pow2(25) == 0x200_0000 && Pow2(28) == 0x1000_0000
  {
    Pow2Values();
    Pow2Sum(5, 5);
    Pow2Sum(10, 12);
    Pow2Sum(10, 15);
    Pow2Sum(13, 15);
  }

  // ------------------------------------------------------------- the packers

  /** Packing the next field after the ones already there. */
  lemma Advance(fs: seq<Field>, n: nat)
    requires n < |fs| && Offset(fs, n + 1) <= 80
    ensures Offset(fs, n) + fs[n].width <= 80
    ensures Splice(Buffer(fs, n), Offset(fs, n), ValueBits(fs[n].value, fs[n].width)) == Buffer(fs, n + 1)
  {
  }

  method PackField(output: array<byte>, ghost fs: seq<Field>, ghost n: nat, pos: nat, value: nat, width: nat)
    requires output.Length == 10 && n < |fs| && Offset(fs, n + 1) <= 80
    requires pos == Offset(fs, n) && fs[n] == Field(value, width)
    requires AllBits(output[..]) == Buffer(fs, n)
    modifies output
    ensures AllBits(output[..]) == Buffer(fs, n + 1)
  {
    Advance(fs, n);
    PackBits(output, pos, value, width);
  }

  method Clear(output: array<byte>, ghost fs: seq<Field>)
    requires output.Length == 10
    modifies output
    ensures AllBits(output[..]) == Buffer(fs, 0)
  {
    for i := 0 to 10
      invariant forall k :: 0 <= k < i ==> output[k] == 0
    {
      output[i] := 0;
    }
    forall k | 0 <= k < 80
      ensures AllBits(output[..])[k] == 0
    {
      BitOfZero(7 - k % 8);
    }
    assert AllBits(output[..]) == Buffer(fs, 0);
  }

  lemma {:induction false} BitOfZero(i: nat)
    ensures Bit(0, i) == 0
  {
    if i > 0 {
      BitOfZero(i - 1);
    }
  }

  lemma ZeroBits(n: nat)
    ensures ValueBits(0, n) == Repeat(0 as bit, n)
  {
    forall i | 0 <= i < n
      ensures ValueBits(0, n)[i] == 0
    {
      BitOfZero(n - 1 - i);
    }
  }

  /** The type fields of the kinds with i3 = 0: the firmware writes i3 first, then n3 before it. */
  method PackTypeZero(output: array<byte>, ghost fs: seq<Field>, ghost n: nat, n3: nat)
    requires output.Length == 10 && n + 2 == |fs|
    requires Offset(fs, n) == 71 && Offset(fs, n + 1) == 74 && Offset(fs, n + 2) == 77
    requires fs[n] == Field(n3, 3) && fs[n + 1] == Field(0, 3)
    requires AllBits(output[..]) == Buffer(fs, n)
    modifies output
    ensures AllBits(output[..]) == Buffer(fs, n + 2)
  {
    PackBits(output, 74, 0, 3);
    ZeroBits(3);
    assert AllBits(output[..]) == Buffer(fs, n);
    PackField(output, fs, n, 71, n3, 3);
    assert Buffer(fs, n + 1) == Buffer(fs, n + 2);
  }

  method SearchSection(section: string) returns (s7: nat)
    ensures s7 == EncodeSection(section)
  {
    s7 := 0;
    if |section| <= 3 {
      var i := SearchTable(SECTIONS, Upper(section));
      if i < |SECTIONS| {
        s7 := i;
      }
    }
  }

  lemma OffsetsTo(fs: seq<Field>)
    ensures |fs| == 3 ==> Offset(fs, 3) == fs[0].width + fs[1].width + fs[2].width
    ensures |fs| == 6 ==> Offset(fs, 6) == fs[0].width + fs[1].width + fs[2].width + fs[3].width + fs[4].width
                                           + fs[5].width
    ensures |fs| == 7 ==> Offset(fs, 7) == fs[0].width + fs[1].width + fs[2].width + fs[3].width + fs[4].width
                                           + fs[5].width + fs[6].width
    ensures |fs| == 8 ==> Offset(fs, 8) == fs[0].width + fs[1].width + fs[2].width + fs[3].width + fs[4].width
                                           + fs[5].width + fs[6].width + fs[7].width
  {
    OffsetsUnrolled(fs);
  }

  lemma BufferFull(fs: seq<Field>)
    requires Offset(fs, |fs|) == 77
    ensures Buffer(fs, |fs|) == Frame(fs)
  {
  }

  // ------------------------------------------------------------- the readers

  function At(bits: seq<bit>, pos: nat, width: nat): (v: nat)
    requires pos + width <= |bits|
    ensures v < Pow2(width)
  {
    BitsValue(bits[pos..pos + width])
  }

  function FlagAt(bits: seq<bit>, pos: nat): bool
    requires pos + 1 <= |bits|
  {
    At(bits, pos, 1) == 1
  }

  // Type 0.1: two callsigns, a 10-bit hash and a report.

  datatype Dxpedition = Dxpedition(a: Token, b: Token, h10: nat, r5: int)

  function DxpeditionFields(m: Dxpedition): seq<Field> {
    var Dxpedition(a, b, h10, r5) := m;
    [Field(EncodeC28(a), 28), Field(EncodeC28(b), 28), Field(h10 % 1024, 10), Field(EncodeR5(r5), 5),
     Field(1, 3), Field(0, 3)]
  }

  method EncodeDxpedition(m: Dxpedition, output: array<byte>)
    requires output.Length == 10
    modifies output
    ensures AllBits(output[..]) == Frame(DxpeditionFields(m))
  {
    var Dxpedition(a, b, h10, r5) := m;
    var a28 := ComputeC28(a);
    var b28 := ComputeC28(b);
    ghost var fs := DxpeditionFields(m);
    OffsetsUnrolled(fs);
    hide Offset;
    hide Pow2;
    hide FieldBits;
    hide Buffer;
    hide Frame;
    hide AllBits;
    Clear(output, fs);
    PackField(output, fs, 0, 0, a28, 28);
    PackField(output, fs, 1, 28, b28, 28);
    PackField(output, fs, 2, 56, h10 % 1024, 10);
    PackField(output, fs, 3, 66, EncodeR5(r5), 5);
    PackTypeZero(output, fs, 4, 1);
    BufferFull(fs);
  }

  lemma DxpeditionReads(m: Dxpedition, bits: seq<bit>)
    requires |bits| == 80 && bits == Frame(DxpeditionFields(m))
    ensures At(bits, 0, 28) == EncodeC28(m.a) % 0x1000_0000
    ensures At(bits, 28, 28) == EncodeC28(m.b) % 0x1000_0000
    ensures At(bits, 56, 10) == m.h10 % 1024
    ensures At(bits, 66, 5) == EncodeR5(m.r5)
    ensures At(bits, 71, 3) == 1
    ensures At(bits, 74, 3) == 0
  {
    hide Pow2;
    hide At;
    hide Offset;
    hide FieldBits;
    var fs := DxpeditionFields(m);
    OffsetsTo(fs);
    FieldsRead(fs, bits);
    Pow2Widths();
  }

  lemma DxpeditionTiles(m: Dxpedition)
    ensures |Frame(DxpeditionFields(m))| == 80
  {
    OffsetsUnrolled(DxpeditionFields(m));
  }

  function ReceiveDxpedition(bits: seq<bit>): Option<Dxpedition>
    requires |bits| == 80
  {
    var a, b := DecodeC28(At(bits, 0, 28)), DecodeC28(At(bits, 28, 28));
    if a.None? || b.None? || !Storable(a.value) || !Storable(b.value) then None else
      Some(Dxpedition(a.value, b.value, At(bits, 56, 10), 2 * At(bits, 66, 5) - 30))
  }

  function DxpeditionView(m: Dxpedition): Dxpedition {
    m.(a := Normal(m.a), b := Normal(m.b))
  }

  predicate DxpeditionCanonical(m: Dxpedition) {
    Canonical(m.a) && Canonical(m.b) && m.h10 < 1024 && -30 <= m.r5 <= 32 && m.r5 % 2 == 0
  }

  lemma DxpeditionExact(m: Dxpedition, bits: seq<bit>)
    requires |bits| == 80 && bits == Frame(DxpeditionFields(m))
    ensures ReceiveDxpedition(bits) == Some(DxpeditionView(m)) <==> DxpeditionCanonical(m)
  {
    var Dxpedition(a, b, h10, r5) := m;
    hide Frame;
    hide At;
    hide EncodeC28;
    hide DecodeC28;
    hide Canonical;
    hide Normal;
    DxpeditionReads(m, bits);
    C28FieldExact(a);
    C28FieldExact(b);
    ReportsExact(r5);
  }

  // Types 0.3 and 0.4: Field Day, the type telling whether there are more than 16 transmitters.

  datatype FieldDay = FieldDay(a: Token, b: Token, r: bool, n4: nat, k3: nat, section: string, transmitters: nat)

  function FieldDayFields(m: FieldDay): seq<Field> {
    var FieldDay(a, b, r, n4, k3, section, transmitters) := m;
    [Field(EncodeC28(a), 28), Field(EncodeC28(b), 28), Flag(r), Field(n4 % 16, 4), Field(EncodeK3(k3), 3),
     Field(EncodeSection(section), 7), Field(if transmitters > 16 then 4 else 3, 3), Field(0, 3)]
  }

  method EncodeFieldDay(m: FieldDay, output: array<byte>)
    requires output.Length == 10
    modifies output
    ensures AllBits(output[..]) == Frame(FieldDayFields(m))
  {
    hide EncodeC28;
    hide EncodeSection;
    hide EncodeK3;
    var FieldDay(a, b, r, n4, k3, section, transmitters) := m;
    var a28 := ComputeC28(a);
    var b28 := ComputeC28(b);
    var s7 := SearchSection(section);
    ghost var fs := FieldDayFields(m);
    OffsetsUnrolled(fs);
    hide Offset;
    hide Pow2;
    hide FieldBits;
    hide Buffer;
    hide Frame;
    hide AllBits;
    Clear(output, fs);
    PackField(output, fs, 0, 0, a28, 28);
    PackField(output, fs, 1, 28, b28, 28);
    PackField(output, fs, 2, 56, if r then 1 else 0, 1);
    PackField(output, fs, 3, 57, n4 % 16, 4);
    PackField(output, fs, 4, 61, EncodeK3(k3), 3);
    PackField(output, fs, 5, 64, s7, 7);
    PackTypeZero(output, fs, 6, if transmitters > 16 then 4 else 3);
    BufferFull(fs);
  }

  lemma FieldDayReads(m: FieldDay, bits: seq<bit>)
    requires |bits| == 80 && bits == Frame(FieldDayFields(m))
    ensures At(bits, 0, 28) == EncodeC28(m.a) % 0x1000_0000
    ensures At(bits, 28, 28) == EncodeC28(m.b) % 0x1000_0000
    ensures At(bits, 56, 1) == (if m.r then 1 else 0)
    ensures At(bits, 57, 4) == m.n4 % 16
    ensures At(bits, 61, 3) == EncodeK3(m.k3)
    ensures At(bits, 64, 7) == EncodeSection(m.section)
    ensures At(bits, 71, 3) == if m.transmitters > 16 then 4 else 3
    ensures At(bits, 74, 3) == 0
  {
    hide Pow2;
    hide At;
    hide Offset;
    hide FieldBits;
    hide EncodeSection;
    hide EncodeC28;
    var fs := FieldDayFields(m);
    OffsetsTo(fs);
    FieldsRead(fs, bits);
    Pow2Widths();
    TableSizes();
  }

  lemma FieldDayTiles(m: FieldDay)
    ensures |Frame(FieldDayFields(m))| == 80
  {
    OffsetsUnrolled(FieldDayFields(m));
  }

  function ReceiveFieldDay(bits: seq<bit>): Option<FieldDay>
    requires |bits| == 80
  {
    var a, b, s7 := DecodeC28(At(bits, 0, 28)), DecodeC28(At(bits, 28, 28)), At(bits, 64, 7);
    if a.None? || b.None? || !Storable(a.value) || !Storable(b.value) || s7 >= |SECTIONS| then None else
      Some(FieldDay(a.value, b.value, FlagAt(bits, 56), At(bits, 57, 4), At(bits, 61, 3), SECTIONS[s7],
                    if At(bits, 71, 3) == 4 then 17 else 16))
  }

  /** The transmitter count is reduced to its over-16 flag, written 17 or 16. */
  function FieldDayView(m: FieldDay): FieldDay {
    m.(a := Normal(m.a), b := Normal(m.b), section := Upper(m.section),
       transmitters := if m.transmitters > 16 then 17 else 16)
  }

  predicate FieldDayCanonical(m: FieldDay) {
    Canonical(m.a) && Canonical(m.b) && m.n4 < 16 && m.k3 <= 5 && Upper(m.section) in SECTIONS
  }

  lemma FieldDayExact(m: FieldDay, bits: seq<bit>)
    requires |bits| == 80 && bits == Frame(FieldDayFields(m))
    ensures ReceiveFieldDay(bits) == Some(FieldDayView(m)) <==> FieldDayCanonical(m)
  {
    var FieldDay(a, b, r, n4, k3, section, transmitters) := m;
    hide Frame;
    hide At;
    hide EncodeC28;
    hide DecodeC28;
    hide Canonical;
    hide Normal;
    hide EncodeSection;
    hide SECTIONS;
    FieldDayReads(m, bits);
    C28FieldExact(a);
    C28FieldExact(b);
    SectionExact(section);
    TableSizes();
  }

  // Types 1 and 2: two callsigns with suffixes (rover or portable), and a grid or report.

  datatype Standard = Standard(a: Token, suffixA: bool, b: Token, suffixB: bool, r: bool, g15: StoredG15)

  function StandardFields(m: Standard, i3: nat): seq<Field> {
    var Standard(a, suffixA, b, suffixB, r, g15) := m;
    [Field(EncodeC28(a), 28), Flag(suffixA), Field(EncodeC28(b), 28), Flag(suffixB), Flag(r),
     Field(EncodeG15(g15), 15), Field(i3, 3)]
  }

  method EncodeStandard(m: Standard, i3: nat, output: array<byte>)
    requires output.Length == 10 && i3 < 8
    modifies output
    ensures AllBits(output[..]) == Frame(StandardFields(m, i3))
  {
    hide EncodeC28;
    hide EncodeG15;
    var Standard(a, suffixA, b, suffixB, r, g15) := m;
    var a28 := ComputeC28(a);
    var b28 := ComputeC28(b);
    ghost var fs := StandardFields(m, i3);
    OffsetsUnrolled(fs);
    hide Offset;
    hide Pow2;
    hide FieldBits;
    hide Buffer;
    hide Frame;
    hide AllBits;
    Clear(output, fs);
    PackField(output, fs, 0, 0, a28, 28);
    PackField(output, fs, 1, 28, if suffixA then 1 else 0, 1);
    PackField(output, fs, 2, 29, b28, 28);
    PackField(output, fs, 3, 57, if suffixB then 1 else 0, 1);
    PackField(output, fs, 4, 58, if r then 1 else 0, 1);
    PackField(output, fs, 5, 59, EncodeG15(g15), 15);
    PackField(output, fs, 6, 74, i3, 3);
    BufferFull(fs);
  }

  lemma StandardReads(m: Standard, i3: nat, bits: seq<bit>)
    requires |bits| == 80 && bits == Frame(StandardFields(m, i3)) && i3 < 8
    ensures At(bits, 0, 28) == EncodeC28(m.a) % 0x1000_0000
    ensures At(bits, 28, 1) == (if m.suffixA then 1 else 0)
    ensures At(bits, 29, 28) == EncodeC28(m.b) % 0x1000_0000
    ensures At(bits, 57, 1) == (if m.suffixB then 1 else 0)
    ensures At(bits, 58, 1) == (if m.r then 1 else 0)
    ensures At(bits, 59, 15) == EncodeG15(m.g15)
    ensures At(bits, 74, 3) == i3
  {
    hide Pow2;
    hide At;
    hide Offset;
    hide FieldBits;
    hide EncodeG15;
    var fs := StandardFields(m, i3);
    OffsetsTo(fs);
    FieldsRead(fs, bits);
    Pow2Widths();
  }

  lemma StandardTiles(m: Standard, i3: nat)
    ensures |Frame(StandardFields(m, i3))| == 80
  {
    OffsetsUnrolled(StandardFields(m, i3));
  }

  function ReceiveStandard(bits: seq<bit>): Option<Standard>
    requires |bits| == 80
  {
    Pow2Values();
    var a, b, g := DecodeC28(At(bits, 0, 28)), DecodeC28(At(bits, 29, 28)), DecodeG15(At(bits, 59, 15));
    if a.None? || b.None? || !Storable(a.value) || !Storable(b.value) then None
    else if g.None? || !StorableG15(g.value) then None
    else Some(Standard(a.value, FlagAt(bits, 28), b.value, FlagAt(bits, 57), FlagAt(bits, 58), g.value))
  }

  function StandardView(m: Standard): Standard {
    m.(a := Normal(m.a), b := Normal(m.b))
  }

  predicate StandardCanonical(m: Standard) {
    Canonical(m.a) && Canonical(m.b) && CanonicalG15(m.g15)
  }

  lemma StandardExact(m: Standard, i3: nat, bits: seq<bit>)
    requires |bits| == 80 && bits == Frame(StandardFields(m, i3)) && i3 < 8
    ensures ReceiveStandard(bits) == Some(StandardView(m)) <==> StandardCanonical(m)
  {
    var Standard(a, suffixA, b, suffixB, r, g15) := m;
    hide Frame;
    hide At;
    hide EncodeC28;
    hide DecodeC28;
    hide Canonical;
    hide Normal;
    hide EncodeG15;
    hide DecodeG15;
    hide CanonicalG15;
    StandardReads(m, i3, bits);
    C28FieldExact(a);
    C28FieldExact(b);
    G15Exact(g15);
  }

  // Type 3: RTTY contest exchange.

  datatype RttyRoundup = RttyRoundup(tu: bool, a: Token, b: Token, r: bool, r3: nat, s13: StoredS13)

  function RttyRoundupFields(m: RttyRoundup): seq<Field> {
    var RttyRoundup(tu, a, b, r, r3, s13) := m;
    [Flag(tu), Field(EncodeC28(a), 28), Field(EncodeC28(b), 28), Flag(r), Field(EncodeR3(r3), 3),
     Field(EncodeS13(s13), 13), Field(3, 3)]
  }

  method EncodeRttyRoundup(m: RttyRoundup, output: array<byte>)
    requires output.Length == 10
    modifies output
    ensures AllBits(output[..]) == Frame(RttyRoundupFields(m))
  {
    var RttyRoundup(tu, a, b, r, r3, s13) := m;
    var a28 := ComputeC28(a);
    var b28 := ComputeC28(b);
    ghost var fs := RttyRoundupFields(m);
    OffsetsUnrolled(fs);
    hide Offset;
    hide Pow2;
    hide FieldBits;
    hide Buffer;
    hide Frame;
    hide AllBits;
    Clear(output, fs);
    PackField(output, fs, 0, 0, if tu then 1 else 0, 1);
    PackField(output, fs, 1, 1, a28, 28);
    PackField(output, fs, 2, 29, b28, 28);
    PackField(output, fs, 3, 57, if r then 1 else 0, 1);
    PackField(output, fs, 4, 58, EncodeR3(r3), 3);
    PackField(output, fs, 5, 61, EncodeS13(s13), 13);
    PackField(output, fs, 6, 74, 3, 3);
    BufferFull(fs);
  }

  lemma RttyRoundupReads(m: RttyRoundup, bits: seq<bit>)
    requires |bits| == 80 && bits == Frame(RttyRoundupFields(m))
    ensures At(bits, 0, 1) == (if m.tu then 1 else 0)
    ensures At(bits, 1, 28) == EncodeC28(m.a) % 0x1000_0000
    ensures At(bits, 29, 28) == EncodeC28(m.b) % 0x1000_0000
    ensures At(bits, 57, 1) == (if m.r then 1 else 0)
    ensures At(bits, 58, 3) == EncodeR3(m.r3)
    ensures At(bits, 61, 13) == EncodeS13(m.s13)
    ensures At(bits, 74, 3) == 3
  {
    hide Pow2;
    hide At;
    hide Offset;
    hide FieldBits;
    hide EncodeS13;
    hide EncodeC28;
    var fs := RttyRoundupFields(m);
    OffsetsTo(fs);
    FieldsRead(fs, bits);
    Pow2Widths();
  }

  lemma RttyRoundupTiles(m: RttyRoundup)
    ensures |Frame(RttyRoundupFields(m))| == 80
  {
    OffsetsUnrolled(RttyRoundupFields(m));
  }

  function ReceiveRttyRoundup(bits: seq<bit>): Option<RttyRoundup>
    requires |bits| == 80
  {
    var a, b, s := DecodeC28(At(bits, 1, 28)), DecodeC28(At(bits, 29, 28)), DecodeS13(At(bits, 61, 13));
    if a.None? || b.None? || s.None? || !Storable(a.value) || !Storable(b.value) || !StorableS13(s.value)
    then None else
      Some(RttyRoundup(FlagAt(bits, 0), a.value, b.value, FlagAt(bits, 57), At(bits, 58, 3) + 2, s.value))
  }

  function RttyRoundupView(m: RttyRoundup): RttyRoundup {
    m.(a := Normal(m.a), b := Normal(m.b), s13 := NormalS13(m.s13))
  }

  predicate RttyRoundupCanonical(m: RttyRoundup) {
    Canonical(m.a) && Canonical(m.b) && 2 <= m.r3 <= 9 && CanonicalS13(m.s13)
  }

  lemma RttyRoundupExact(m: RttyRoundup, bits: seq<bit>)
    requires |bits| == 80 && bits == Frame(RttyRoundupFields(m))
    ensures ReceiveRttyRoundup(bits) == Some(RttyRoundupView(m)) <==> RttyRoundupCanonical(m)
  {
    var RttyRoundup(tu, a, b, r, r3, s13) := m;
    hide Frame;
    hide At;
    hide EncodeC28;
    hide DecodeC28;
    hide Canonical;
    hide Normal;
    hide EncodeS13;
    hide DecodeS13;
    hide CanonicalS13;
    hide NormalS13;
    RttyRoundupReads(m, bits);
    C28FieldExact(a);
    C28FieldExact(b);
    ReportsExact(r3);
    S13Exact(s13);
  }

  // Type 4: a non-standard callsign in full and the hash of the other.

  datatype NonStandard = NonStandard(h12: nat, c58: FullCallsign, h1: bool, r2: R2, c1: bool)

  function NonStandardFields(m: NonStandard): seq<Field> {
    var NonStandard(h12, c58, h1, r2, c1) := m;
    [Field(h12 % 4096, 12), Field(EncodeC58(c58), 58), Flag(h1), Field(EncodeR2(r2), 2), Flag(c1), Field(4, 3)]
  }

  method EncodeNonStandard(m: NonStandard, output: array<byte>)
    requires output.Length == 10
    modifies output
    ensures AllBits(output[..]) == Frame(NonStandardFields(m))
  {
    var NonStandard(h12, c58, h1, r2, c1) := m;
    hide Pow2;
    hide EncodeC58;
    var n58 := ComputeC58(c58);
    ghost var fs := NonStandardFields(m);
    OffsetsUnrolled(fs);
    hide Offset;
    hide FieldBits;
    Clear(output, fs);
    PackField(output, fs, 0, 0, h12 % 4096, 12);
    PackField(output, fs, 1, 12, n58, 58);
    PackField(output, fs, 2, 70, if h1 then 1 else 0, 1);
    PackField(output, fs, 3, 71, EncodeR2(r2), 2);
    PackField(output, fs, 4, 73, if c1 then 1 else 0, 1);
    PackField(output, fs, 5, 74, 4, 3);
    BufferFull(fs);
  }

  lemma NonStandardReads(m: NonStandard, bits: seq<bit>)
    requires |bits| == 80 && bits == Frame(NonStandardFields(m))
    ensures At(bits, 0, 12) == m.h12 % 4096
    ensures At(bits, 12, 58) == EncodeC58(m.c58)
    ensures At(bits, 70, 1) == (if m.h1 then 1 else 0)
    ensures At(bits, 71, 2) == EncodeR2(m.r2)
    ensures At(bits, 73, 1) == (if m.c1 then 1 else 0)
    ensures At(bits, 74, 3) == 4
  {
    hide Pow2;
    hide At;
    hide Offset;
    hide FieldBits;
    hide EncodeC58;
    var fs := NonStandardFields(m);
    OffsetsTo(fs);
    FieldsRead(fs, bits);
    Pow2Widths();
    C58Bound(m.c58);
  }

  lemma NonStandardTiles(m: NonStandard)
    ensures |Frame(NonStandardFields(m))| == 80
  {
    OffsetsUnrolled(NonStandardFields(m));
  }

  function ReceiveNonStandard(bits: seq<bit>): Option<NonStandard>
    requires |bits| == 80
  {
    Some(NonStandard(At(bits, 0, 12), TextOf(CALL_CHARS, At(bits, 12, 58), CALL_LENGTH), FlagAt(bits, 70),
                     DecodeR2(At(bits, 71, 2)), FlagAt(bits, 73)))
  }

  function NonStandardView(m: NonStandard): NonStandard {
    m.(c58 := LeftJustified(m.c58))
  }

  predicate NonStandardCanonical(m: NonStandard) {
    m.h12 < 4096 && forall c :: c in LeftJustified(m.c58) ==> c in CALL_CHARS
  }

  lemma NonStandardExact(m: NonStandard, bits: seq<bit>)
    requires |bits| == 80 && bits == Frame(NonStandardFields(m))
    ensures ReceiveNonStandard(bits) == Some(NonStandardView(m)) <==> NonStandardCanonical(m)
  {
    var NonStandard(h12, c58, h1, r2, c1) := m;
    hide Frame;
    hide At;
    hide EncodeC28;
    hide DecodeC28;
    hide Canonical;
    hide Normal;
    hide EncodeC58;
    hide TextOf;
    hide LeftJustified;
    hide CALL_CHARS;
    NonStandardReads(m, bits);
    C58Recovered(c58);
  }

  // Type 5: hashed callsigns, report, serial and six-character grid.

  datatype EuropeanVhf = EuropeanVhf(h12: nat, h22: nat, r: bool, r3: nat, s11: nat, g25: string)

  function EuropeanVhfFields(m: EuropeanVhf): seq<Field> {
    var EuropeanVhf(h12, h22, r, r3, s11, g25) := m;
    [Field(h12 % 4096, 12), Field(h22 % 0x40_0000, 22), Flag(r), Field(EncodeR3(r3), 3), Field(s11 % 2048, 11),
     Field(EncodeG25(g25), 25), Field(5, 3)]
  }

  method EncodeEuropeanVhf(m: EuropeanVhf, output: array<byte>)
    requires output.Length == 10
    modifies output
    ensures AllBits(output[..]) == Frame(EuropeanVhfFields(m))
  {
    var EuropeanVhf(h12, h22, r, r3, s11, g25) := m;
    ghost var fs := EuropeanVhfFields(m);
    OffsetsUnrolled(fs);
    hide Offset;
    hide Pow2;
    hide FieldBits;
    hide Buffer;
    hide Frame;
    hide AllBits;
    Clear(output, fs);
    PackField(output, fs, 0, 0, h12 % 4096, 12);
    PackField(output, fs, 1, 12, h22 % 0x40_0000, 22);
    PackField(output, fs, 2, 34, if r then 1 else 0, 1);
    PackField(output, fs, 3, 35, EncodeR3(r3), 3);
    PackField(output, fs, 4, 38, s11 % 2048, 11);
    PackField(output, fs, 5, 49, EncodeG25(g25), 25);
    PackField(output, fs, 6, 74, 5, 3);
    BufferFull(fs);
  }

  lemma EuropeanVhfReads(m: EuropeanVhf, bits: seq<bit>)
    requires |bits| == 80 && bits == Frame(EuropeanVhfFields(m))
    ensures At(bits, 0, 12) == m.h12 % 4096
    ensures At(bits, 12, 22) == m.h22 % 0x40_0000
    ensures At(bits, 34, 1) == (if m.r then 1 else 0)
    ensures At(bits, 35, 3) == EncodeR3(m.r3)
    ensures At(bits, 38, 11) == m.s11 % 2048
    ensures At(bits, 49, 25) == EncodeG25(m.g25)
    ensures At(bits, 74, 3) == 5
  {
    hide Pow2;
    hide At;
    hide Offset;
    hide FieldBits;
    hide Frame;
    hide EncodeG25;
    hide EncodeR3;
    var fs := EuropeanVhfFields(m);
    OffsetsTo(fs);
    FieldsRead(fs, bits);
    Pow2Widths();
    G25Exact(m.g25);
  }

  lemma EuropeanVhfTiles(m: EuropeanVhf)
    ensures |Frame(EuropeanVhfFields(m))| == 80
  {
    OffsetsUnrolled(EuropeanVhfFields(m));
  }

  function ReceiveEuropeanVhf(bits: seq<bit>): Option<EuropeanVhf>
    requires |bits| == 80
  {
    Some(EuropeanVhf(At(bits, 0, 12), At(bits, 12, 22), FlagAt(bits, 34), At(bits, 35, 3) + 2, At(bits, 38, 11),
                     DecodeG25(At(bits, 49, 25))))
  }

  function EuropeanVhfView(m: EuropeanVhf): EuropeanVhf {
    m
  }

  predicate EuropeanVhfCanonical(m: EuropeanVhf) {
    m.h12 < 4096 && m.h22 < 0x40_0000 && 2 <= m.r3 <= 9 && m.s11 < 2048 && ValidG25(m.g25)
  }

  lemma EuropeanVhfExact(m: EuropeanVhf, bits: seq<bit>)
    requires |bits| == 80 && bits == Frame(EuropeanVhfFields(m))
    ensures ReceiveEuropeanVhf(bits) == Some(EuropeanVhfView(m)) <==> EuropeanVhfCanonical(m)
  {
    var EuropeanVhf(h12, h22, r, r3, s11, g25) := m;
    hide Frame;
    hide At;
    hide EncodeC28;
    hide DecodeC28;
    hide Canonical;
    hide Normal;
    hide EncodeG25;
    hide DecodeG25;
    hide ValidG25;
    EuropeanVhfReads(m, bits);
    ReportsExact(r3);
    G25Exact(g25);
  }

  // Types 0.0 and 0.5: the top 71 bits of a 9-byte buffer.

  function BytesFields(value: nat, n3: nat): seq<Field> {
    [Field(value / 2, 71), Field(n3, 3), Field(0, 3)]
  }

  method EncodeBytes(src: array<byte>, n3: nat, output: array<byte>)
    requires output.Length == 10 && src.Length == 9 && src != output
    modifies output
    ensures AllBits(output[..]) == Frame(BytesFields(old(BytesValue(src[..])), n3))
  {
    ghost var fs := BytesFields(BytesValue(src[..]), n3);
    OffsetsUnrolled(fs);
    Clear(output, fs);
    ghost var top := AllBits(src[..])[..71];
    FieldIsHalf(src[..]);
    ValueBitsOfBitsValue(top);
    Advance(fs, 0);
    PackBytes(output, 0, src[..], 71);
    PackTypeZero(output, fs, 1, n3);
    BufferFull(fs);
  }

  lemma BytesRead(value: nat, n3: nat, bits: seq<bit>)
    requires |bits| == 80 && bits == Frame(BytesFields(value, n3))
    requires value < Pow(256, 9) && n3 < 8
    ensures At(bits, 0, 71) == value / 2 && At(bits, 71, 3) == n3 && At(bits, 74, 3) == 0
  {
    hide Pow2;
    hide Pow;
    hide At;
    hide Offset;
    hide FieldBits;
    OffsetsTo(BytesFields(value, n3));
    FieldsRead(BytesFields(value, n3), bits);
    Pow2Widths();
    TextNumbers();
  }

  lemma {:induction false} ZeroValue(s: seq<byte>)
    ensures BytesValue(s) == 0 <==> forall i :: 0 <= i < |s| ==> s[i] == 0
  {
    if s != [] {
      ZeroValue(s[..|s| - 1]);
    }
  }

  /** The half-value field gives telemetry back exactly when all nine bytes are zero. */
  lemma TelemetryReceived(data: seq<byte>)
    requires |data| == 9
    ensures ValueBytes(BytesValue(data) / 2, 9) == data <==> forall i :: 0 <= i < 9 ==> data[i] == 0
  {
    hide Pow;
    var v := BytesValue(data);
    BytesValueBound(data);
    ValueOfValueBytes(v / 2, 9);
    ValueOfValueBytes(0, 9);
    ZeroValue(data);
    ZeroValue(ValueBytes(0, 9));
    hide BytesValue;
    hide ValueBytes;
    if v == 0 {
      assert ValueBytes(0, 9) == data;
    }
  }

  // -------------------------------------------------------- the whole message

  datatype Payload =
    | FreeText(text: FreeFormText)
    | Dx(dx: Dxpedition)
    | Fd(fd: FieldDay)
    | Telemetry(data: seq<byte>)
    | Std(std: Standard)
    | EuVhf2(eu2: Standard)
    | RttyRu(ru: RttyRoundup)
    | NonStd(non: NonStandard)
    | EuVhf5(eu5: EuropeanVhf)

  function Fields(p: Payload): seq<Field> {
    match p
    case FreeText(text) => BytesFields(TextValue(TEXT_CHARS, RightJustified(text)), 0)
    case Dx(m) => DxpeditionFields(m)
    case Fd(m) => FieldDayFields(m)
    case Telemetry(data) => BytesFields(BytesValue(data), 5)
    case Std(m) => StandardFields(m, 1)
    case EuVhf2(m) => StandardFields(m, 2)
    case RttyRu(m) => RttyRoundupFields(m)
    case NonStd(m) => NonStandardFields(m)
    case EuVhf5(m) => EuropeanVhfFields(m)
  }

  /** The 80 bits of the payload buffer. */
  function PayloadBits(p: Payload): seq<bit> {
    Frame(Fields(p))
  }

  /** The fields of every message tile bits 0..76 and bits 77..79 are zero. */
  lemma PayloadTiled(p: Payload)
    ensures Offset(Fields(p), |Fields(p)|) == 77 && |PayloadBits(p)| == 80
    ensures PayloadBits(p)[77..] == [0, 0, 0]
  {
    match p {
      case FreeText(text) => OffsetsUnrolled(BytesFields(TextValue(TEXT_CHARS, RightJustified(text)), 0));
      case Telemetry(data) => OffsetsUnrolled(BytesFields(BytesValue(data), 5));
      case Dx(m) => DxpeditionTiles(m);
      case Fd(m) => FieldDayTiles(m);
      case Std(m) => StandardTiles(m, 1);
      case EuVhf2(m) => StandardTiles(m, 2);
      case RttyRu(m) => RttyRoundupTiles(m);
      case NonStd(m) => NonStandardTiles(m);
      case EuVhf5(m) => EuropeanVhfTiles(m);
    }
  }

  /** The whole encoder: fills the 10-byte buffer with the payload of any message. */
  method EncodePayload(p: Payload, output: array<byte>)
    requires output.Length == 10 && (p.Telemetry? ==> |p.data| == 9)
    modifies output
    ensures AllBits(output[..]) == PayloadBits(p)
  {
    match p {
      case FreeText(text) =>
        var encoded := EncodeF71(text);
        EncodeBytes(encoded, 0, output);
      case Telemetry(data) =>
        var copy := new byte[9](i requires 0 <= i < |data| => data[i]);
        assert copy[..] == data;
        EncodeBytes(copy, 5, output);
      case Dx(m) => EncodeDxpedition(m, output);
      case Fd(m) => EncodeFieldDay(m, output);
      case Std(m) => EncodeStandard(m, 1, output);
      case EuVhf2(m) => EncodeStandard(m, 2, output);
      case RttyRu(m) => EncodeRttyRoundup(m, output);
      case NonStd(m) => EncodeNonStandard(m, output);
      case EuVhf5(m) => EncodeEuropeanVhf(m, output);
    }
  }

  /** The receiver: reads i3, then n3 when i3 is 0, then the fields of that kind. A telemetry field is a
      number, given back as its nine big-endian bytes. */
  function Receive(bits: seq<bit>): Option<Payload>
    requires |bits| == 80
  {
    var i3, n3 := At(bits, 74, 3), At(bits, 71, 3);
    if i3 == 0 then
      if n3 == 0 then Some(FreeText(TextOf(TEXT_CHARS, At(bits, 0, 71), TEXT_LENGTH)))
      else if n3 == 1 then ReceiveDxpedition(bits).Map(m => Dx(m))
      else if n3 == 3 || n3 == 4 then ReceiveFieldDay(bits).Map(m => Fd(m))
      else if n3 == 5 then Some(Telemetry(ValueBytes(At(bits, 0, 71), 9)))
      else None
    else if i3 == 1 then ReceiveStandard(bits).Map(m => Std(m))
    else if i3 == 2 then ReceiveStandard(bits).Map(m => EuVhf2(m))
    else if i3 == 3 then ReceiveRttyRoundup(bits).Map(m => RttyRu(m))
    else if i3 == 4 then ReceiveNonStandard(bits).Map(m => NonStd(m))
    else if i3 == 5 then ReceiveEuropeanVhf(bits).Map(m => EuVhf5(m))
    else None
  }

  /** The message in the form a receiver writes it: letters upper-cased, free text and the callsign of a
      non-standard message padded, and of the transmitters whether there are more than 16. */
  function View(p: Payload): Payload {
    match p
    case FreeText(text) => FreeText(RightJustified(text))
    case Telemetry(data) => Telemetry(data)
    case Dx(m) => Dx(DxpeditionView(m))
    case Fd(m) => Fd(FieldDayView(m))
    case Std(m) => Std(StandardView(m))
    case EuVhf2(m) => EuVhf2(StandardView(m))
    case RttyRu(m) => RttyRu(RttyRoundupView(m))
    case NonStd(m) => NonStd(NonStandardView(m))
    case EuVhf5(m) => EuVhf5(EuropeanVhfView(m))
  }

  /** The messages whose every field is in range and in the form its encoding can carry; of free text and
      telemetry, which lose their lowest bit and are read one place too far down, only the empty ones. */
  predicate CanonicalPayload(p: Payload) {
    match p
    case FreeText(text) => Blank(RightJustified(text))
    case Telemetry(data) => forall i :: 0 <= i < |data| ==> data[i] == 0
    case Dx(m) => DxpeditionCanonical(m)
    case Fd(m) => FieldDayCanonical(m)
    case Std(m) => StandardCanonical(m)
    case EuVhf2(m) => StandardCanonical(m)
    case RttyRu(m) => RttyRoundupCanonical(m)
    case NonStd(m) => NonStandardCanonical(m)
    case EuVhf5(m) => EuropeanVhfCanonical(m)
  }

  /** What the receiver makes of any free text: the text of half its value. */
  lemma FreeTextSeen(text: FreeFormText)
    ensures |PayloadBits(FreeText(text))| == 80
    ensures Receive(PayloadBits(FreeText(text))) == Some(FreeText(ReceivedText(text)))
  {
    hide Frame;
    hide At;
    hide Pow;
    hide Pow2;
    hide Offset;
    hide TextValue;
    hide TextOf;
    hide RightJustified;
    hide BytesFields;
    PayloadTiled(FreeText(text));
    TextFits(RightJustified(text));
    BytesRead(TextValue(TEXT_CHARS, RightJustified(text)), 0, PayloadBits(FreeText(text)));
  }

  /** What the receiver makes of any telemetry: the bytes of half its value. */
  lemma TelemetrySeen(data: seq<byte>)
    requires |data| == 9
    ensures |PayloadBits(Telemetry(data))| == 80
    ensures Receive(PayloadBits(Telemetry(data))) == Some(Telemetry(ValueBytes(BytesValue(data) / 2, 9)))
  {
    hide Frame;
    hide At;
    hide Pow;
    hide Pow2;
    hide Offset;
    hide BytesValue;
    hide ValueBytes;
    hide BytesFields;
    PayloadTiled(Telemetry(data));
    BytesValueBound(data);
    BytesRead(BytesValue(data), 5, PayloadBits(Telemetry(data)));
  }

  /** Two free texts share a payload exactly when their values differ in the lowest bit at most. */
  lemma FreeTextsCollide(text1: FreeFormText, text2: FreeFormText)
    ensures PayloadBits(FreeText(text1)) == PayloadBits(FreeText(text2)) <==>
            TextValue(TEXT_CHARS, RightJustified(text1)) / 2 == TextValue(TEXT_CHARS, RightJustified(text2)) / 2
  {
    hide Frame;
    hide At;
    hide Pow;
    hide Pow2;
    hide Offset;
    hide TextValue;
    hide RightJustified;
    PayloadTiled(FreeText(text1));
    PayloadTiled(FreeText(text2));
    var v1, v2 := TextValue(TEXT_CHARS, RightJustified(text1)), TextValue(TEXT_CHARS, RightJustified(text2));
    TextFits(RightJustified(text1));
    TextFits(RightJustified(text2));
    BytesRead(v1, 0, PayloadBits(FreeText(text1)));
    BytesRead(v2, 0, PayloadBits(FreeText(text2)));
  }

  /** Reading the payload back gives the message, with its kind and every field, exactly for the canonical
      messages. */
  lemma PayloadExact(p: Payload)
    requires p.Telemetry? ==> |p.data| == 9
    ensures |PayloadBits(p)| == 80
    ensures Receive(PayloadBits(p)) == Some(View(p)) <==> CanonicalPayload(p)
  {
    PayloadTiled(p);
    var bits := PayloadBits(p);
    hide Frame;
    hide At;
    hide Pow;
    hide Pow2;
    hide Offset;
    hide TextValue;
    hide TextOf;
    hide BytesValue;
    hide ValueBytes;
    hide RightJustified;
    hide ReceivedText;
    hide Blank;
    hide ReceiveDxpedition;
    hide ReceiveFieldDay;
    hide ReceiveStandard;
    hide ReceiveRttyRoundup;
    hide ReceiveNonStandard;
    hide ReceiveEuropeanVhf;
    hide BytesFields;
    hide DxpeditionFields;
    hide FieldDayFields;
    hide StandardFields;
    hide RttyRoundupFields;
    hide NonStandardFields;
    hide EuropeanVhfFields;
    match p {
      case FreeText(text) =>
        FreeTextSeen(text);
        FreeTextReceived(text);
      case Telemetry(data) =>
        TelemetrySeen(data);
        TelemetryReceived(data);
      case Dx(m) => DxpeditionReads(m, bits); DxpeditionExact(m, bits);
      case Fd(m) => FieldDayReads(m, bits); FieldDayExact(m, bits);
      case Std(m) => StandardReads(m, 1, bits); StandardExact(m, 1, bits);
      case EuVhf2(m) => StandardReads(m, 2, bits); StandardExact(m, 2, bits);
      case RttyRu(m) => RttyRoundupReads(m, bits); RttyRoundupExact(m, bits);
      case NonStd(m) => NonStandardReads(m, bits); NonStandardExact(m, bits);
      case EuVhf5(m) => EuropeanVhfReads(m, bits); EuropeanVhfExact(m, bits);
    }
  }

  lemma UpperTwice(s: string)
    ensures Upper(Upper(s)) == Upper(s)
  {
  }

  lemma NormalSame(t: C28)
    requires Storable(t)
    ensures Storable(Normal(t)) && EncodeC28(Normal(t)) == EncodeC28(t)
  {
    match t
    case CqMod(m) =>
      UpperTwice(m);
      assert AllDigits(m) <==> AllDigits(Upper(m)) by {
        assert forall i :: 0 <= i < |m| ==> (IsDigit(Upper(m)[i]) <==> IsDigit(m[i]));
      }
      assert AllDigits(m) ==> Upper(m) == m;
    case Callsign(c) => UpperTwice(c);
    case _ =>
  }

  lemma JustifiedTwice(text: string)
    ensures RightJustified(RightJustified(text)) == RightJustified(text)
    ensures LeftJustified(LeftJustified(text)) == LeftJustified(text)
  {
  }

  lemma TablesSame(section: string, s: S13)
    ensures EncodeSection(Upper(section)) == EncodeSection(section)
    ensures EncodeS13(NormalS13(s)) == EncodeS13(s)
  {
    UpperTwice(section);
    if s.State? {
      UpperTwice(s.state);
    }
    hide FindText;
    hide Entry;
  }

  lemma DxpeditionViewSame(m: Dxpedition)
    ensures DxpeditionFields(DxpeditionView(m)) == DxpeditionFields(m)
  {
    NormalSame(m.a);
    NormalSame(m.b);
    hide EncodeC28;
    hide Normal;
  }

  lemma FieldDayViewSame(m: FieldDay)
    ensures FieldDayFields(FieldDayView(m)) == FieldDayFields(m)
  {
    NormalSame(m.a);
    NormalSame(m.b);
    TablesSame(m.section, Serial(0));
    hide EncodeC28;
    hide Normal;
    hide EncodeSection;
    hide Upper;
  }

  lemma StandardViewSame(m: Standard, i3: nat)
    ensures StandardFields(StandardView(m), i3) == StandardFields(m, i3)
  {
    NormalSame(m.a);
    NormalSame(m.b);
    hide EncodeC28;
    hide Normal;
    hide EncodeG15;
  }

  lemma RttyRoundupViewSame(m: RttyRoundup)
    ensures RttyRoundupFields(RttyRoundupView(m)) == RttyRoundupFields(m)
  {
    NormalSame(m.a);
    NormalSame(m.b);
    TablesSame("", m.s13);
    hide EncodeC28;
    hide Normal;
    hide EncodeS13;
    hide NormalS13;
  }

  /** The form a receiver writes has the same payload as the message. */
  lemma ViewSame(p: Payload)
    ensures PayloadBits(View(p)) == PayloadBits(p)
  {
    hide Frame;
    hide TextValue;
    hide RightJustified;
    hide LeftJustified;
    hide DxpeditionFields;
    hide FieldDayFields;
    hide StandardFields;
    hide RttyRoundupFields;
    match p
    case FreeText(text) => JustifiedTwice(text);
    case Dx(m) => DxpeditionViewSame(m);
    case Fd(m) => FieldDayViewSame(m);
    case Std(m) => StandardViewSame(m, 1);
    case EuVhf2(m) => StandardViewSame(m, 2);
    case RttyRu(m) => RttyRoundupViewSame(m);
    case NonStd(m) => JustifiedTwice(m.c58);
    case _ =>
  }

  /** Of a Field Day message's transmitter count the payload tells whether it is over 16, and nothing else. */
  lemma TransmittersSeen(m: FieldDay, count: nat)
    ensures PayloadBits(Fd(m)) == PayloadBits(Fd(m.(transmitters := count))) <==>
            (m.transmitters > 16 <==> count > 16)
  {
    hide Frame;
    hide At;
    hide EncodeC28;
    hide EncodeK3;
    hide EncodeSection;
    var m' := m.(transmitters := count);
    FieldDayTiles(m);
    FieldDayTiles(m');
    FieldDayReads(m, PayloadBits(Fd(m)));
    FieldDayReads(m', PayloadBits(Fd(m')));
  }

  /** Canonical messages with the same payload are the same message, up to letter case and padding, and up to the
      over-16 flag of a Field Day message's transmitter count. */
  lemma PayloadInjective(p: Payload, q: Payload)
    requires (p.Telemetry? ==> |p.data| == 9) && (q.Telemetry? ==> |q.data| == 9)
    requires CanonicalPayload(p) && CanonicalPayload(q)
    ensures PayloadBits(p) == PayloadBits(q) <==> View(p) == View(q)
  {
    hide PayloadBits;
    hide View;
    hide CanonicalPayload;
    hide Receive;
    PayloadExact(p);
    PayloadExact(q);
    ViewSame(p);
    ViewSame(q);
  }
}
