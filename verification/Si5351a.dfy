/** The Si5351A clock generator's dividers: fraction approximation and register encoding
    (drivers/clock_control/clock_si5351a.c). The encoding is the one of Silicon Labs AN619, sections 3.2 and
    4.1.2. `floor(128 * (double)b / c)` is exact integer division: the quotient's distance to the next integer
    is at least 1/c, far more than the rounding of a double of this size. */
module Si5351a {
  import opened Machine

  const PLL_A_MIN: nat := 15
  const PLL_A_MAX: nat := 90
  const MS_A_MIN: nat := 6
  const MS_A_MAX: nat := 1800
  const B_MAX: nat := 1048574
  const VCO_MIN: nat := 600_000_000
  const VCO_MAX: nat := 900_000_000
  const RFRAC_DENOM: nat := 1_000_000
  const PLLA_PARAMETERS: nat := 26
  const PLLB_PARAMETERS: nat := 34
  const CLK0_PARAMETERS: nat := 42
  const CLK0_CTRL: nat := 16
  const EINVAL: int := 22
  const EIO: int := 5

  const TWO_18: nat := 0x4_0000
  const TWO_20: nat := 0x10_0000

  type word32 = w: int | 0 <= w < 0x1_0000_0000

  /** A divider of a + b/c. */
  datatype Divider = Divider(a: word32, b: word32, c: word32)

  /** The chip's own three numbers for a divider. */
  datatype Parameters = Parameters(p1: nat, p2: nat, p3: nat)

  predicate InRange(d: Divider, low: nat, high: nat) {
    low <= d.a <= high && d.b <= B_MAX && d.c != 0
  }

  function ParametersOf(d: Divider): Parameters
    requires InRange(d, MS_A_MIN, MS_A_MAX)
  {
    if d.b == 0 then Parameters(128 * d.a - 512, d.b, d.c)
    else
      var quotient := 128 * d.b / d.c;
      DivNat(128 * d.b, d.c);
      DivisionIdentity(128 * d.b, d.c);
      Parameters(128 * d.a + quotient - 512, 128 * d.b - quotient * d.c, d.c)
  }

  /** The byte of `x` above its lowest `low` (a power of two), cut to `range` values. */
  function Bits(x: nat, low: nat, range: nat): (r: nat)
    requires low > 0 && range > 0
    ensures r < range
  {
    DivNat(x, low);
    DivisionIdentity(x / low, range);
    x / low % range
  }

  /** The eight registers of a divider. */
  function Block(p: Parameters): (s: seq<byte>)
    ensures |s| == 8
  {
    [Bits(p.p3, 0x100, 0x100), Bits(p.p3, 1, 0x100),
     Bits(p.p1, 0x1_0000, 4), Bits(p.p1, 0x100, 0x100), Bits(p.p1, 1, 0x100),
     Bits(p.p3, 0x1_0000, 16) * 16 + Bits(p.p2, 0x1_0000, 16), Bits(p.p2, 0x100, 0x100), Bits(p.p2, 1, 0x100)]
  }

  /** What the chip reads from the eight registers. */
  function ReadBlock(s: seq<byte>): Parameters
    requires |s| == 8
  {
    var s0: nat, s1: nat, s2: nat, s3: nat, s4: nat, s5: nat, s6: nat, s7: nat :=
      s[0], s[1], s[2], s[3], s[4], s[5], s[6], s[7];
    Parameters(
      s2 % 4 * 0x1_0000 + s3 * 0x100 + s4,
      s5 % 16 * 0x1_0000 + s6 * 0x100 + s7,
      s5 / 16 * 0x1_0000 + s0 * 0x100 + s1)
  }

  lemma ThreeParts(x: nat, top: nat)
    requires top > 0
    ensures Bits(x, 0x1_0000, top) * 0x1_0000 + Bits(x, 0x100, 0x100) * 0x100 + Bits(x, 1, 0x100)
            == x % (0x1_0000 * top)
  {
    var h := x / 0x1_0000;
    DivDiv(x, 0x100, 0x100);
    assert x == h * 0x1_0000 + x / 0x100 % 0x100 * 0x100 + x % 0x100;
    DivisionIdentity(h, top);
    var low := x - h * 0x1_0000;
    TwoDigits(h / top, h % top, low, 0x1_0000, top);
    DivModUnique(x, h / top, h % top * 0x1_0000 + low, 0x1_0000 * top);
  }

  /** The chip reads back what fits: 18 bits of P1 and 20 of P2 and P3. */
  lemma BlockRead(p: Parameters)
    ensures ReadBlock(Block(p)) == Parameters(p.p1 % TWO_18, p.p2 % TWO_20, p.p3 % TWO_20)
  {
    hide Bits;
    var s := Block(p);
    DivMod(Bits(p.p3, 0x1_0000, 16), Bits(p.p2, 0x1_0000, 16), 16);
    ThreeParts(p.p1, 4);
    ThreeParts(p.p2, 16);
    ThreeParts(p.p3, 16);
  }

  /** AN619's equation for a divider: P1 and P2 are the quotient and the remainder of 128 (a + b/c) - 512. */
  predicate Represents(p: Parameters, d: Divider) {
    p.p3 == d.c && p.p2 < d.c && (p.p1 + 512) * d.c + p.p2 == 128 * (d.a * d.c + d.b)
  }

  lemma ParametersRepresent(d: Divider)
    requires InRange(d, MS_A_MIN, MS_A_MAX)
    ensures Represents(ParametersOf(d), d)
    ensures d.b < d.c ==> ParametersOf(d).p1 < TWO_18
  {
    var p := ParametersOf(d);
    if d.b != 0 {
      var quotient := 128 * d.b / d.c;
      DivisionIdentity(128 * d.b, d.c);
      assert (128 * d.a + quotient) * d.c == 128 * (d.a * d.c) + quotient * d.c;
      if d.b < d.c {
        DivLess(128 * d.b, d.c, 128);
      }
    } else {
      assert 128 * d.a * d.c == 128 * (d.a * d.c);
    }
  }

  lemma RepresentsUnique(p: Parameters, q: Parameters, d: Divider)
    requires Represents(p, d) && Represents(q, d)
    ensures p == q
  {
    DivModUnique((p.p1 + 512) * d.c + p.p2, p.p1 + 512, p.p2, d.c);
    DivModUnique((q.p1 + 512) * d.c + q.p2, q.p1 + 512, q.p2, d.c);
  }

  /** The registers stand for the divider exactly when its denominator has 20 bits and P1 has 18, as it has
      for every proper fraction. */
  lemma RegistersExact(d: Divider)
    requires InRange(d, MS_A_MIN, MS_A_MAX)
    ensures Represents(ReadBlock(Block(ParametersOf(d))), d) <==> d.c < TWO_20 && ParametersOf(d).p1 < TWO_18
    ensures d.b < d.c < TWO_20 ==> Represents(ReadBlock(Block(ParametersOf(d))), d)
  {
    hide Represents;
    hide ParametersOf;
    hide Block;
    hide ReadBlock;
    var p := ParametersOf(d);
    var r := ReadBlock(Block(p));
    BlockRead(p);
    ParametersRepresent(d);
    RepresentsParts(p, d);
    if Represents(r, d) {
      RepresentsUnique(p, r, d);
    }
  }

  lemma RepresentsParts(p: Parameters, d: Divider)
    requires Represents(p, d)
    ensures p.p3 == d.c && p.p2 < d.c
  {
  }

  // ------------------------------------------------------------- frequencies

  /** A fraction of a `whole` in millionths: the quotient, and the part of the remainder. */
  function Millionths(x: nat, whole: nat): (part: nat)
    requires whole > 0
    ensures part < RFRAC_DENOM
  {
    DivisionIdentity(x, whole);
    MulMono(x % whole, whole - 1, RFRAC_DENOM);
    DivNat(x % whole * RFRAC_DENOM, whole);
    DivLess(x % whole * RFRAC_DENOM, whole, RFRAC_DENOM);
    x % whole * RFRAC_DENOM / whole
  }

  lemma MillionthsIs(x: nat, whole: nat)
    requires whole > 0
    ensures x % whole * RFRAC_DENOM / whole == Millionths(x, whole)
  {
  }

  /** The feedback divider for a VCO frequency. */
  function PllDivider(freq: word32, xtal: word32): Divider
    requires xtal > 0
  {
    DivisionIdentity(freq, xtal);
    DivNat(freq, xtal);
    MulMono(1, xtal, TWO_32);
    DivLess(freq, xtal, TWO_32);
    if freq % xtal == 0 then Divider(freq / xtal, 0, 1)
    else Divider(freq / xtal, Millionths(freq, xtal), RFRAC_DENOM)
  }

  /** The crystal times the divider is at most the frequency, and less than a millionth of the crystal short
      of it. */
  predicate Undershoots(xtal: nat, freq: nat, d: Divider) {
    var ideal := xtal * (d.a * d.c + d.b);
    ideal <= freq * d.c && (freq * d.c - ideal) * RFRAC_DENOM < xtal * d.c
  }

  /** The fraction is the largest number of millionths that does not overshoot. */
  lemma MillionthsClose(x: nat, whole: nat)
    requires whole > 0
    ensures var n := x / whole * RFRAC_DENOM + Millionths(x, whole);
            whole * n <= x * RFRAC_DENOM < whole * n + whole
  {
    var q, r, b := x / whole, x % whole, Millionths(x, whole);
    DivisionIdentity(x, whole);
    DivisionIdentity(r * RFRAC_DENOM, whole);
    assert x * RFRAC_DENOM == q * whole * RFRAC_DENOM + r * RFRAC_DENOM;
    assert whole * (q * RFRAC_DENOM + b) == q * whole * RFRAC_DENOM + b * whole;
  }

  lemma PllClose(freq: word32, xtal: word32)
    requires xtal > 0
    ensures var d := PllDivider(freq, xtal);
            Undershoots(xtal, freq, d) && d.b < d.c < TWO_20
  {
    hide Millionths;
    DivisionIdentity(freq, xtal);
    MillionthsClose(freq, xtal);
    if freq % xtal == 0 {
      assert xtal * (freq / xtal * 1 + 0) == freq;
    }
  }

  /** The output divider for a frequency in millihertz; the whole part is cut to 32 bits. */
  function MsDivider(pllMillihertz: nat, freq: nat): Divider
    requires freq > 0
  {
    DivNat(pllMillihertz, freq);
    Divider(U32(pllMillihertz / freq), Millionths(pllMillihertz, freq), RFRAC_DENOM)
  }

  /** The PLL divided by a + b/c is at least the frequency, and above it by less than a part in six million. */
  predicate Accurate(pll: nat, freq: nat, d: Divider) {
    var n := d.a * d.c + d.b;
    freq * n <= pll * d.c && pll * d.c * 6_000_000 < freq * n * 6_000_001
  }

  lemma ScaledLess(t: nat, freq: nat, n: nat)
    requires t < freq && n >= 6_000_000
    ensures t * 6_000_000 < freq * n
  {
    MulMono(6_000_000, n, freq);
  }

  lemma WrappedFar(pll: nat, freq: nat, q: nat, n: nat)
    requires freq > 0 && q >= TWO_32 && q * freq <= pll && n < 1801 * RFRAC_DENOM
    ensures freq * n * 6_000_001 < pll * RFRAC_DENOM * 6_000_000
  {
    MulMono(n, 1801 * RFRAC_DENOM, freq);
    MulMono(TWO_32, q, freq);
  }

  /** An accepted divider is accurate exactly when the ratio of the frequencies fits in 32 bits. */
  lemma AccurateExactly(pll: nat, freq: nat)
    requires freq > 0 && InRange(MsDivider(pll, freq), MS_A_MIN, MS_A_MAX)
    ensures Accurate(pll, freq, MsDivider(pll, freq)) <==> pll / freq < TWO_32
    ensures MsDivider(pll, freq).b < MsDivider(pll, freq).c < TWO_20
  {
    hide Millionths;
    var d, q := MsDivider(pll, freq), pll / freq;
    var n := d.a * d.c + d.b;
    MillionthsClose(pll, freq);
    DivisionIdentity(pll, freq);
    if q < TWO_32 {
      assert n == q * RFRAC_DENOM + d.b;
      ScaledLess(pll * RFRAC_DENOM - freq * n, freq, n);
    } else {
      WrappedFar(pll, freq, q, n);
    }
  }

  /** From one hertz up the ratio always fits, so every accepted request is accurate. */
  lemma AccurateFromOneHertz(pllHertz: word32, freq: nat)
    requires freq >= 1000 && InRange(MsDivider(pllHertz * 1000, freq), MS_A_MIN, MS_A_MAX)
    ensures Accurate(pllHertz * 1000, freq, MsDivider(pllHertz * 1000, freq))
  {
    MulMono(1000, freq, TWO_32);
    DivLess(pllHertz * 1000, freq, TWO_32);
    AccurateExactly(pllHertz * 1000, freq);
  }

  // ---------------------------------------------------- the stored frequency

  // A `double` of one hertz or more is a whole number of 2^-52 hertz, and that number stands for it here.
  const SCALE: nat := 0x10_0000_0000_0000

  /** The driver's `double` product, for the dividers it computes one for: three roundings are off by less than
      a part in 2^51 of the exact value, and whole numbers are exact. */
  predicate IsProduct(product: nat, xtal: nat, d: Divider) {
    InRange(d, PLL_A_MIN, PLL_A_MAX) ==>
      var n := xtal * (d.a * d.c + d.b);
      Near(product * d.c, n * SCALE, 2 * n) && (d.b % d.c == 0 ==> product * d.c == n * SCALE)
  }

  predicate Near(x: int, y: int, error: int) {
    y - error <= x <= y + error
  }

  function Cut(product: nat): (freq: nat)
    ensures freq * SCALE <= product < freq * SCALE + SCALE
  {
    product / SCALE
  }

  lemma CancelLess(x: int, y: int, c: nat)
    requires x * c < y * c
    ensures x < y
  {
    if x >= y {
      MulMono(y, x, c);
    }
  }

  /** A scaled number close to `n` is cut to the quotient or a neighbour of it; with an error below one, to the
      quotient, or just below a whole one. */
  lemma CutOfScaled(n: nat, c: nat, product: nat, error: nat)
    requires c > 0 && Near(product * c, n * SCALE, error) && error < c * SCALE
    ensures n / c - 1 <= Cut(product) <= n / c + 1
    ensures error < SCALE ==> Cut(product) == n / c || (n % c == 0 && Cut(product) == n / c - 1)
  {
    hide Cut;
    CutScaled(product, c);
    Unscaled(Cut(product) * c, product * c, n, c, error);
    QuotientNear(Cut(product), n, c);
    hide Near;
  }

  lemma Unscaled(x: nat, y: nat, n: nat, c: nat, error: nat)
    requires x * SCALE <= y < x * SCALE + c * SCALE && Near(y, n * SCALE, error) && error < c * SCALE
    ensures x < n + c && n < x + 2 * c
    ensures error < SCALE ==> x <= n <= x + c
  {
  }

  lemma QuotientNear(f: nat, n: nat, c: nat)
    requires c > 0 && f * c < n + c && n < f * c + 2 * c
    ensures n / c - 1 <= f <= n / c + 1
    ensures f * c <= n <= f * c + c ==> f == n / c || (n % c == 0 && f == n / c - 1)
  {
    var q, r := n / c, n % c;
    DivisionIdentity(n, c);
    CancelLess(f, q + 2, c);
    CancelLess(q - 2, f, c);
    if f * c <= n <= f * c + c {
      CancelLess(f, q + 1, c);
      if r > 0 {
        CancelLess(q - 1, f, c);
      }
    }
  }

  lemma CutScaled(product: nat, c: nat)
    requires c > 0
    ensures var x := Cut(product) * c;
            x * SCALE <= product * c < x * SCALE + c * SCALE
  {
    var f, g := Cut(product), product - Cut(product) * SCALE;
    MulMono(g, SCALE - 1, c);
    MulNat(g, c);
    assert product * c == f * c * SCALE + g * c;
  }

  /** The frequency is the whole part of the crystal times the divider, or next to it, if 32 bits hold it. */
  predicate NearVco(freq: nat, xtal: nat, d: Divider)
    requires d.c > 0
  {
    var n := xtal * (d.a * d.c + d.b);
    n < (TWO_32 - 1) * d.c ==> n / d.c - 1 <= freq <= n / d.c + 1
  }

  lemma StoredNear(xtal: nat, d: Divider, product: nat)
    requires InRange(d, PLL_A_MIN, PLL_A_MAX) && IsProduct(product, xtal, d)
    ensures NearVco(U32(Cut(product)), xtal, d)
  {
    var n := xtal * (d.a * d.c + d.b);
    hide Cut;
    if n < (TWO_32 - 1) * d.c {
      CutOfScaled(n, d.c, product, 2 * n);
      DivLess(n, d.c, TWO_32 - 1);
      DivNat(n, d.c);
    }
  }

  /** The frequency itself if the crystal divides it, else at most a millionth of the crystal and a hertz below. */
  predicate JustBelow(stored: nat, freq: nat, xtal: nat)
    requires xtal > 0
  {
    stored <= freq && (freq - stored - 1) * RFRAC_DENOM < xtal && (freq % xtal == 0 ==> stored == freq)
  }

  lemma CutMillionths(xtal: nat, freq: nat, d: Divider, product: nat)
    requires d.c == RFRAC_DENOM && InRange(d, PLL_A_MIN, PLL_A_MAX)
    requires IsProduct(product, xtal, d) && Undershoots(xtal, freq, d) && freq <= VCO_MAX
    ensures var n := xtal * (d.a * d.c + d.b);
            n <= freq * RFRAC_DENOM < n + xtal &&
            (Cut(product) == n / RFRAC_DENOM || (n % RFRAC_DENOM == 0 && Cut(product) == n / RFRAC_DENOM - 1))
  {
    hide Cut;
    var n := xtal * (d.a * d.c + d.b);
    CutOfScaled(n, RFRAC_DENOM, product, 2 * n);
  }

  lemma BelowByCut(xtal: nat, freq: nat, n: nat, f: int)
    requires n <= freq * RFRAC_DENOM < n + xtal && freq % xtal != 0 && freq <= VCO_MAX
    requires f == n / RFRAC_DENOM || (n % RFRAC_DENOM == 0 && f == n / RFRAC_DENOM - 1)
    requires f >= 0
    ensures JustBelow(U32(f), freq, xtal)
  {
  }

  lemma CutOfWhole(xtal: nat, d: Divider, product: nat)
    requires d.c == 1 && InRange(d, PLL_A_MIN, PLL_A_MAX) && IsProduct(product, xtal, d)
    ensures Cut(product) == xtal * (d.a + d.b)
  {
  }

  /** What the driver stores for a requested VCO frequency. */
  lemma StoredClose(freq: word32, xtal: word32, product: nat)
    requires xtal > 0 && freq <= VCO_MAX && InRange(PllDivider(freq, xtal), PLL_A_MIN, PLL_A_MAX)
    requires IsProduct(product, xtal, PllDivider(freq, xtal))
    ensures JustBelow(U32(Cut(product)), freq, xtal)
  {
    hide PllDivider;
    hide IsProduct;
    hide Undershoots;
    hide Cut;
    var d := PllDivider(freq, xtal);
    PllClose(freq, xtal);
    PllDividerParts(freq, xtal);
    if freq % xtal != 0 {
      CutMillionths(xtal, freq, d, product);
      BelowByCut(xtal, freq, xtal * (d.a * d.c + d.b), Cut(product));
    } else {
      CutOfWhole(xtal, d, product);
    }
  }

  lemma PllDividerParts(freq: word32, xtal: word32)
    requires xtal > 0
    ensures var d := PllDivider(freq, xtal);
            if freq % xtal == 0 then d.b == 0 && d.c == 1 && xtal * d.a == freq else d.c == RFRAC_DENOM
  {
    DivisionIdentity(freq, xtal);
  }

  /** Below one hertz the cut quotient can be accepted: with the board's 25 MHz crystal a PLL frequency that is
      stored exactly, at which a request for a millihertz gets the divider of about eight megahertz. */
  lemma BelowOneHertz()
    ensures var freq, xtal := 738_734_375, 25_000_000;
            var d, e := PllDivider(freq, xtal), MsDivider(freq * 1000, 1);
            d == Divider(29, 549_375, RFRAC_DENOM) && InRange(d, PLL_A_MIN, PLL_A_MAX) &&
            VCO_MIN <= freq <= VCO_MAX && IsProduct(freq * SCALE, xtal, d) && Cut(freq * SCALE) == freq &&
            e == Divider(88, 0, RFRAC_DENOM) && InRange(e, MS_A_MIN, MS_A_MAX) && !Accurate(freq * 1000, 1, e)
  {
    var freq, xtal := 738_734_375, 25_000_000;
    DivModUnique(freq, 29, 13_734_375, xtal);
    DivModUnique(13_734_375 * RFRAC_DENOM, 549_375, 0, xtal);
    DivModUnique(freq * 1000, 172, 88, TWO_32);
    DivModUnique(freq * SCALE, freq, 0, SCALE);
    AccurateExactly(freq * 1000, 1);
  }

  // -------------------------------------------------------- crystal to output

  /** The crystal, multiplied by the feedback divider and divided by the output divider, is at least the
      requested number of millihertz, and above it by less than a part in 5.9 million. */
  predicate OutputAccurate(xtal: nat, feedback: Divider, output: Divider, millihertz: nat) {
    var vco := xtal * (feedback.a * feedback.c + feedback.b);
    var n := millihertz * (output.a * output.c + output.b);
    n * feedback.c <= 1000 * output.c * vco && 1000 * output.c * vco * 5_900_000 < n * feedback.c * 5_900_001
  }

  /** The stored frequency is the exact one cut to whole hertz, or one hertz less when that is whole already. */
  lemma StoredBrackets(freq: word32, xtal: word32, product: nat)
    requires xtal > 0 && freq <= VCO_MAX && InRange(PllDivider(freq, xtal), PLL_A_MIN, PLL_A_MAX)
    requires IsProduct(product, xtal, PllDivider(freq, xtal))
    ensures var d, stored := PllDivider(freq, xtal), U32(Cut(product));
            var vco := xtal * (d.a * d.c + d.b);
            stored * d.c <= vco <= (stored + 1) * d.c
  {
    hide PllDivider;
    hide IsProduct;
    hide Undershoots;
    hide Cut;
    var d := PllDivider(freq, xtal);
    PllClose(freq, xtal);
    PllDividerParts(freq, xtal);
    if freq % xtal != 0 {
      CutMillionths(xtal, freq, d, product);
      BracketByCut(xtal * (d.a * d.c + d.b), Cut(product));
    } else {
      CutOfWhole(xtal, d, product);
    }
  }

  lemma BracketByCut(n: nat, f: nat)
    requires n <= VCO_MAX * RFRAC_DENOM
    requires f == n / RFRAC_DENOM || (n % RFRAC_DENOM == 0 && f == n / RFRAC_DENOM - 1)
    ensures U32(f) * RFRAC_DENOM <= n <= (U32(f) + 1) * RFRAC_DENOM
  {
  }

  lemma Chained(x: nat, stored: nat, c: nat, vco: nat)
    requires stored * c <= vco <= (stored + 1) * c && c > 0
    requires stored >= 400_000_000
    requires x <= stored * 1000 * RFRAC_DENOM && stored * 1000 * RFRAC_DENOM * 6_000_000 < x * 6_000_001
    ensures x * c <= 1000 * RFRAC_DENOM * vco && 1000 * RFRAC_DENOM * vco * 5_900_000 < x * c * 5_900_001
  {
    MulMono(x, stored * 1000 * RFRAC_DENOM, c);
    assert stored * 1000 * RFRAC_DENOM * c == 1000 * RFRAC_DENOM * (stored * c);
    var y, z := 1000 * RFRAC_DENOM * (stored + 1) * 5_900_000, x * 5_900_001;
    assert y + 1 <= z;
    MulMono(y + 1, z, c);
    assert (y + 1) * c == 1000 * RFRAC_DENOM * 5_900_000 * ((stored + 1) * c) + c;
    assert z * c == x * c * 5_900_001;
  }

  /** From the crystal to the pin: whatever VCO frequency the PLL was set for, every accepted request from one
      hertz up is met that closely by the divider computed from the stored frequency. */
  lemma PinAccurate(freq: word32, xtal: word32, product: nat, millihertz: nat)
    requires xtal > 0 && VCO_MIN <= freq <= VCO_MAX && InRange(PllDivider(freq, xtal), PLL_A_MIN, PLL_A_MAX)
    requires IsProduct(product, xtal, PllDivider(freq, xtal)) && millihertz >= 1000
    requires InRange(MsDivider(U32(Cut(product)) * 1000, millihertz), MS_A_MIN, MS_A_MAX)
    ensures OutputAccurate(xtal, PllDivider(freq, xtal), MsDivider(U32(Cut(product)) * 1000, millihertz), millihertz)
  {
    hide IsProduct;
    hide Cut;
    hide Millionths;
    var d, stored := PllDivider(freq, xtal), U32(Cut(product));
    var e := MsDivider(stored * 1000, millihertz);
    StoredBrackets(freq, xtal, product);
    StoredClose(freq, xtal, product);
    AccurateFromOneHertz(stored, millihertz);
    hide PllDivider;
    hide MsDivider;
    Chained(millihertz * (e.a * e.c + e.b), stored, d.c, xtal * (d.a * d.c + d.b));
  }

  // ---------------------------------------------------------------- the driver

  predicate IsPll(pll: char) {
    pll == 'A' || pll == 'B'
  }

  function PllBase(pll: char): nat {
    if pll == 'A' then PLLA_PARAMETERS else PLLB_PARAMETERS
  }

  /** Multisynth source, 8 mA, powered up; PLL B and integer mode have a bit each. */
  function ClockControl(pll: char, b: nat): byte {
    0x0F + (if pll == 'B' then 0x20 else 0) + (if b == 0 then 0x40 else 0)
  }

  /** Where the eight registers of each PLL and of each of the eight outputs are, and the control register of
      an output. */
  lemma RegisterMap(ms: byte)
    requires ms <= 7
    ensures PllBase('A') == 26 && PllBase('B') == 34
    ensures CLK0_PARAMETERS + 8 * ms == 42 + 8 * ms && CLK0_CTRL + ms == 16 + ms
  {
  }

  /** What is accepted: feedback dividers from 15 to 90 for 600 to 900 MHz, output dividers from 6 to 1800, and
      numerators up to 1048574; everything else is the error -22, a failed transfer -5. */
  lemma AcceptedExactly(d: Divider, freq: nat)
    ensures InRange(d, PLL_A_MIN, PLL_A_MAX) <==> 15 <= d.a <= 90 && d.b <= 1048574 && d.c != 0
    ensures InRange(d, MS_A_MIN, MS_A_MAX) <==> 6 <= d.a <= 1800 && d.b <= 1048574 && d.c != 0
    ensures VCO_MIN <= freq <= VCO_MAX <==> 600_000_000 <= freq <= 900_000_000
    ensures -EINVAL == -22 && -EIO == -5
    ensures IsPll('A') && IsPll('B') && forall pll :: IsPll(pll) ==> pll == 'A' || pll == 'B'
  {
  }

  /** What a control register says: powered down, integer mode, PLL B, inverted, source, and drive strength. */
  datatype Control = Control(down: bool, whole: bool, pllB: bool, inverted: bool, source: nat, drive: nat)

  /** The chip's reading of a control register. */
  function ReadControl(v: byte): Control {
    Control(v / 128 == 1, v / 64 % 2 == 1, v / 32 % 2 == 1, v / 16 % 2 == 1, v / 4 % 4, v % 4)
  }

  /** An output is powered up, fed by its own multisynth from the chosen PLL, with the strongest drive, and in
      integer mode exactly for a whole divider. */
  lemma ControlRead(pll: char, b: nat)
    requires IsPll(pll)
    ensures ReadControl(ClockControl(pll, b)) == Control(false, b == 0, pll == 'B', false, 3, 3)
  {
  }

  /** Registers with a block written at `start`. */
  function Written(registers: seq<byte>, start: nat, values: seq<byte>): (s: seq<byte>)
    requires start + |values| <= |registers|
    ensures |s| == |registers|
  {
    registers[..start] + values + registers[start + |values|..]
  }

  /** The device data and the chip's registers. A bus transfer happens whole or fails and writes nothing. */
  class Clock {
    const registers: array<byte>
    const xtalFreq: word32
    var pllaConfigured: bool
    var pllbConfigured: bool
    var pllaFreq: word32
    var pllbFreq: word32

    ghost predicate Valid() {
      registers.Length == 256 && xtalFreq > 0
    }

    constructor (xtalFreq: word32)
      requires xtalFreq > 0
      ensures Valid() && this.xtalFreq == xtalFreq && fresh(registers)
      ensures !pllaConfigured && !pllbConfigured && pllaFreq == 0 && pllbFreq == 0
    {
      registers := new byte[256](_ => 0);
      this.xtalFreq := xtalFreq;
      pllaConfigured, pllbConfigured, pllaFreq, pllbFreq := false, false, 0, 0;
    }

    function PllFreq(pll: char): word32
      reads this
    {
      if pll == 'A' then pllaFreq else pllbFreq
    }

    method WriteMultiple(start: nat, values: seq<byte>, works: bool) returns (ret: int)
      requires Valid() && start + |values| <= 256
      modifies registers
      ensures ret == if works then 0 else -EIO
      ensures registers[..] == if works then Written(old(registers[..]), start, values) else old(registers[..])
    {
      if !works {
        return -EIO;
      }
      for i := 0 to |values|
        invariant registers[..] == Written(old(registers[..]), start, values[..i])
      {
        registers[start + i] := values[i];
      }
      assert values[..|values|] == values;
      return 0;
    }

    /** `product` is the driver's floating-point VCO frequency, in units of 2^-52 hertz; it is stored cut to whole
        hertz. */
    method SetPll(pll: char, d: Divider, product: nat, works: bool) returns (ret: int)
      requires Valid() && IsProduct(product, xtalFreq, d)
      modifies this, registers
      ensures ret == -EINVAL <==> !IsPll(pll) || !InRange(d, PLL_A_MIN, PLL_A_MAX)
      ensures ret == 0 || ret == -EINVAL || (ret == -EIO && !works)
      ensures ret == 0 ==>
        IsPll(pll) && InRange(d, PLL_A_MIN, PLL_A_MAX) && works &&
        registers[..] == Written(old(registers[..]), PllBase(pll), Block(ParametersOf(d))) &&
        PllFreq(pll) == U32(Cut(product)) &&
        (if pll == 'A' then pllaFreq else pllbFreq) == U32(Cut(product)) &&
        (pll == 'A' ==> pllbFreq == old(pllbFreq)) && (pll == 'B' ==> pllaFreq == old(pllaFreq)) &&
        pllaConfigured == (pll == 'A' || old(pllaConfigured)) && pllbConfigured == (pll == 'B' || old(pllbConfigured))
      ensures ret == 0 ==> NearVco(PllFreq(pll), xtalFreq, d)
      ensures ret != 0 ==> registers[..] == old(registers[..]) && unchanged(this)
    {
      if pll != 'A' && pll != 'B' {
        return -EINVAL;
      }
      if d.a < PLL_A_MIN || d.a > PLL_A_MAX {
        return -EINVAL;
      }
      if d.b > B_MAX {
        return -EINVAL;
      }
      if d.c == 0 {
        return -EINVAL;
      }
      hide Written;
      hide Block;
      hide ParametersOf;
      ret := WriteMultiple(PllBase(pll), Block(ParametersOf(d)), works);
      if ret != 0 {
        return;
      }
      var freq := U32(Cut(product));
      StoredNear(xtalFreq, d, product);
      if pll == 'A' {
        pllaConfigured := true;
        pllaFreq := freq;
      } else {
        pllbConfigured := true;
        pllbFreq := freq;
      }
    }

    /** The feedback divider comes within a millionth of the crystal below the frequency, the registers hold it,
        and the stored frequency is at most a hertz further down. */
    method SetPllFreq(pll: char, freq: word32, product: nat, works: bool) returns (ret: int)
      requires Valid() && IsProduct(product, xtalFreq, PllDivider(freq, xtalFreq))
      modifies this, registers
      ensures var d := PllDivider(freq, xtalFreq);
              (ret == -EINVAL <==> !(VCO_MIN <= freq <= VCO_MAX) || !IsPll(pll) || !InRange(d, PLL_A_MIN, PLL_A_MAX)) &&
              (ret == 0 ==>
                Undershoots(xtalFreq, freq, d) &&
                Represents(ReadBlock(registers[PllBase(pll)..PllBase(pll) + 8]), d) &&
                registers[..] == Written(old(registers[..]), PllBase(pll), registers[PllBase(pll)..PllBase(pll) + 8]) &&
                JustBelow(PllFreq(pll), freq, xtalFreq))
      ensures ret == 0 || ret == -EINVAL || (ret == -EIO && !works)
      ensures ret != 0 ==> registers[..] == old(registers[..]) && unchanged(this)
    {
      if freq < VCO_MIN || freq > VCO_MAX {
        return -EINVAL;
      }
      hide IsProduct;
      hide NearVco;
      hide JustBelow;
      hide Millionths;
      hide Undershoots;
      hide Represents;
      hide Block;
      hide ReadBlock;
      hide ParametersOf;
      hide Written;
      var a := freq / xtalFreq;
      var remainder := freq % xtalFreq;
      var b, c: word32;
      if remainder == 0 {
        b := 0;
        c := 1;
      } else {
        c := RFRAC_DENOM;
        MillionthsIs(freq, xtalFreq);
        b := remainder * c / xtalFreq;
      }
      ghost var d := PllDivider(freq, xtalFreq);
      PllClose(freq, xtalFreq);
      assert d == Divider(a, b, c);
      ret := SetPll(pll, Divider(a, b, c), product, works);
      if ret == 0 {
        StoredClose(freq, xtalFreq, product);
        RegistersExact(d);
        ReadBack(old(registers[..]), PllBase(pll), Block(ParametersOf(d)));
      }
    }

    predicate MsAccepted(ms: byte, d: Divider, pll: char) {
      ms <= 7 && InRange(d, MS_A_MIN, MS_A_MAX) && IsPll(pll)
    }

    /** The divider's block, then the clock control register; if only the second transfer fails, the block is
        already written. */
    method SetMs(ms: byte, d: Divider, pll: char, blockWorks: bool, controlWorks: bool) returns (ret: int)
      requires Valid()
      modifies registers
      ensures ret == -EINVAL <==> !MsAccepted(ms, d, pll)
      ensures ret == 0 <==> MsAccepted(ms, d, pll) && blockWorks && controlWorks
      ensures ret == 0 || ret == -EINVAL || ret == -EIO
      ensures registers[..] ==
        if !MsAccepted(ms, d, pll) || !blockWorks then old(registers[..])
        else
          var block := Written(old(registers[..]), CLK0_PARAMETERS + 8 * ms, Block(ParametersOf(d)));
          if controlWorks then Written(block, CLK0_CTRL + ms, [ClockControl(pll, d.b)]) else block
    {
      hide Block;
      hide ParametersOf;
      hide Written;
      if ms > 7 {
        return -EINVAL;
      }
      if d.a < MS_A_MIN || d.a > MS_A_MAX {
        return -EINVAL;
      }
      if d.b > B_MAX {
        return -EINVAL;
      }
      if d.c == 0 {
        return -EINVAL;
      }
      if pll != 'A' && pll != 'B' {
        return -EINVAL;
      }
      ret := WriteMultiple(CLK0_PARAMETERS + 8 * ms, Block(ParametersOf(d)), blockWorks);
      if ret != 0 {
        return;
      }
      var clkCtrl: byte := 0x0F;
      if pll == 'B' {
        clkCtrl := clkCtrl + 0x20;
      }
      if d.b == 0 {
        clkCtrl := clkCtrl + 0x40;
      }
      ret := WriteMultiple(CLK0_CTRL + ms, [clkCtrl], controlWorks);
    }

    predicate FreqAccepted(ms: byte, hertz: word32, millihertz: word32, pll: char)
      reads this
    {
      ms <= 7 && IsPll(pll) && millihertz < 1000 && PllFreq(pll) != 0 && hertz * 1000 + millihertz != 0 &&
      InRange(MsDivider(PllFreq(pll) * 1000, hertz * 1000 + millihertz), MS_A_MIN, MS_A_MAX)
    }

    /** What the two output functions accept, in numbers. */
    lemma AcceptedOutputs(ms: byte, d: Divider, hertz: word32, millihertz: word32, pll: char)
      ensures MsAccepted(ms, d, pll) <==>
              ms <= 7 && 6 <= d.a <= 1800 && d.b <= 1048574 && d.c != 0 && (pll == 'A' || pll == 'B')
      ensures FreqAccepted(ms, hertz, millihertz, pll) <==>
              ms <= 7 && (pll == 'A' || pll == 'B') && millihertz <= 999 && !(hertz == 0 && millihertz == 0) &&
              var stored, freq: nat := if pll == 'A' then pllaFreq else pllbFreq, 1000 * hertz + millihertz;
              stored > 0 && 6 <= MsDivider(1000 * stored, freq).a <= 1800
    {
    }

    /** An accepted request leaves registers that stand for a divider whose output is within the accuracy
        exactly when the frequency ratio fits in 32 bits, and always from one hertz up. */
    method SetMsFreq(ms: byte, hertz: word32, millihertz: word32, pll: char, blockWorks: bool, controlWorks: bool)
        returns (ret: int)
      requires Valid()
      modifies registers
      ensures ret == -EINVAL <==> !FreqAccepted(ms, hertz, millihertz, pll)
      ensures ret == 0 <==> FreqAccepted(ms, hertz, millihertz, pll) && blockWorks && controlWorks
      ensures ret == -EINVAL ==> registers[..] == old(registers[..])
      ensures ret == 0 ==>
        var freq, total := hertz * 1000 + millihertz, PllFreq(pll) * 1000;
        var d, start := MsDivider(total, freq), CLK0_PARAMETERS + 8 * ms;
        Represents(ReadBlock(registers[start..start + 8]), d) && d.c == RFRAC_DENOM &&
        registers[CLK0_CTRL + ms] == ClockControl(pll, d.b) &&
        (Accurate(total, freq, d) <==> total / freq < TWO_32) &&
        (hertz >= 1 ==> Accurate(total, freq, d))
    {
      hide Accurate;
      hide Represents;
      hide Block;
      hide ReadBlock;
      hide ParametersOf;
      hide Written;
      hide Millionths;
      if ms > 7 {
        return -EINVAL;
      }
      if pll != 'A' && pll != 'B' {
        return -EINVAL;
      }
      if millihertz >= 1000 {
        return -EINVAL;
      }
      var pllFreq := if pll == 'A' then pllaFreq else pllbFreq;
      if pllFreq == 0 {
        return -EINVAL;
      }
      var freq: nat := hertz * 1000 + millihertz;
      if freq == 0 {
        return -EINVAL;
      }
      var total: nat := pllFreq * 1000;
      DivNat(total, freq);
      var a := U32(total / freq);
      var remainder := total % freq;
      var c := RFRAC_DENOM;
      MillionthsIs(total, freq);
      var b: word32 := remainder * c / freq;
      ghost var d := MsDivider(total, freq);
      ret := SetMs(ms, Divider(a, b, c), pll, blockWorks, controlWorks);
      if ret == 0 {
        AccurateExactly(total, freq);
        if hertz >= 1 {
          AccurateFromOneHertz(pllFreq, freq);
        }
        RegistersExact(d);
        TwoWrites(old(registers[..]), CLK0_PARAMETERS + 8 * ms, Block(ParametersOf(d)), CLK0_CTRL + ms,
                  ClockControl(pll, d.b));
      }
    }
  }

  lemma ReadBack(registers: seq<byte>, start: nat, values: seq<byte>)
    requires start + |values| <= |registers|
    ensures Written(registers, start, values)[start..start + |values|] == values
  {
  }

  /** A control register below a block does not disturb it. */
  lemma TwoWrites(registers: seq<byte>, start: nat, values: seq<byte>, control: nat, value: byte)
    requires control < start && start + |values| <= |registers|
    ensures var s := Written(Written(registers, start, values), control, [value]);
            s[start..start + |values|] == values && s[control] == value
  {
  }
}
