/** The C machine types and character tests that every part of the firmware shares. */
module Machine {

  datatype Option<+T> = None | Some(value: T) {
    function Map<U>(f: T -> U): Option<U> {
      match this
      case None => None
      case Some(v) => Some(f(v))
    }
  }

  /** A `uint8_t`. */
  type byte = b: int | 0 <= b < 256

  /** A `uint8_t` that only ever holds 0 or 1. */
  type bit = b: int | 0 <= b <= 1

  /** A `uint16_t`. */
  type word16 = w: int | 0 <= w < 0x1_0000

  const TWO_32: nat := 0x1_0000_0000
  const TWO_64: nat := 0x1_0000_0000_0000_0000

  /** Conversion to `uint32_t`: reduction modulo 2^32, also for negative values. */
  function U32(x: int): (r: nat)
    ensures r < TWO_32
  {
    x % TWO_32
  }

  function Pow2(n: nat): (r: nat)
    ensures r >= 1
  {
    if n == 0 then 1 else 2 * Pow2(n - 1)
  }

  lemma {:induction false} Pow2Sum(m: nat, n: nat)
    ensures Pow2(m + n) == Pow2(m) * Pow2(n)
  {
    if m > 0 {
      Pow2Sum(m - 1, n);
      assert Pow2(m + n) == 2 * Pow2(m - 1 + n);
    }
  }

  lemma {:induction false} Pow2Monotone(m: nat, n: nat)
    requires m <= n
    ensures Pow2(m) <= Pow2(n)
  {
    if m < n {
      Pow2Monotone(m, n - 1);
    }
  }

  lemma Pow2Values()
    ensures Pow2(8) == 0x100 && Pow2(15) == 0x8000 && Pow2(16) == 0x1_0000
    ensures Pow2(31) == 0x8000_0000 && Pow2(32) == 0x1_0000_0000
  {
    Pow2Sum(8, 7);
    Pow2Sum(8, 8);
    Pow2Sum(16, 15);
    Pow2Sum(16, 16);
  }

  lemma MulBound(m: int, k: int)
    requires m > 0
    ensures k >= 1 ==> m * k >= m
    ensures k <= -1 ==> m * k <= -m
  {
    if k >= 1 {
      assert m * k == m * (k - 1) + m;
    } else if k <= -1 {
      assert m * k == m * (k + 1) - m;
    }
  }

  /** Mixed-radix division: the quotient and the digit of `q * m + r`. */
  lemma DivMod(q: int, r: int, m: int)
    requires 0 <= r < m
    ensures (q * m + r) / m == q && (q * m + r) % m == r
  {
    var x := q * m + r;
    var k := x / m - q;
    MulBound(m, k);
    assert m * k == m * (x / m) - q * m;
  }

  lemma MulMono(x: int, y: int, z: nat)
    requires x <= y
    ensures x * z <= y * z
  {
    MulNat(y - x, z);
    assert y * z - x * z == (y - x) * z;
  }

  lemma MulNat(x: nat, y: nat)
    ensures x * y >= 0
  {
  }

  lemma DivLess(x: nat, d: nat, n: nat)
    requires d > 0 && x < n * d
    ensures x / d < n
  {
    if x / d >= n {
      MulMono(n, x / d, d);
    }
  }

  lemma MulAssoc(x: int, y: int, z: int)
    ensures x * y * z == x * (y * z)
  {
  }

  lemma TwoDigits(q: nat, g: nat, e: nat, a: nat, b: nat)
    requires g < b && e < a
    ensures (q * b + g) * a + e == q * (a * b) + (g * a + e)
    ensures 0 <= g * a + e < a * b
  {
    MulAssoc(q, b, a);
    MulMono(g, b - 1, a);
    MulNat(g, a);
  }

  lemma DivModUnique(x: int, q: int, r: int, m: int)
    requires x == q * m + r && 0 <= r < m
    ensures x / m == q && x % m == r
  {
    DivMod(q, r, m);
  }

  lemma DivisionIdentity(x: int, m: int)
    requires m > 0
    ensures x == x / m * m + x % m && 0 <= x % m < m
  {
  }

  /** Dividing in two steps is dividing once. */
  lemma DivDiv(x: nat, a: nat, b: nat)
    requires a > 0 && b > 0
    ensures a * b > 0 && x / (a * b) == x / a / b
  {
    DivisionIdentity(x, a);
    DivisionIdentity(x / a, b);
    DivNat(x, a);
    DivNat(x / a, b);
    TwoDigits(x / a / b, x / a % b, x % a, a, b);
    DivModUnique(x, x / a / b, x / a % b * a + x % a, a * b);
  }

  lemma DivNat(x: nat, d: nat)
    requires d > 0
    ensures x / d >= 0
  {
  }

  /** Horner's step keeps a number below the next power of its base. */
  lemma HornerBound(x: nat, d: nat, base: nat, p: nat)
    requires x < p && d < base
    ensures x * base + d < base * p
  {
    MulMono(x, p - 1, base);
  }

  function Xor(a: bit, b: bit): bit {
    if a == b then 0 else 1
  }

  // The <ctype.h> tests in the C locale.

  predicate IsUpper(c: char) {
    'A' <= c <= 'Z'
  }

  predicate IsLower(c: char) {
    'a' <= c <= 'z'
  }

  predicate IsAlpha(c: char) {
    IsUpper(c) || IsLower(c)
  }

  predicate IsDigit(c: char) {
    '0' <= c <= '9'
  }

  function ToUpper(c: char): char {
    if IsLower(c) then ((c as int) - 32) as char else c
  }

  /** `toupper` applied to every character of a string. */
  function Upper(s: string): (u: string)
    ensures |u| == |s|
    ensures forall i :: 0 <= i < |s| ==> u[i] == ToUpper(s[i])
  {
    seq(|s|, i requires 0 <= i < |s| => ToUpper(s[i]))
  }

  /** `n` consecutive characters, starting with `first`. */
  function Span(first: char, n: nat): (s: string)
    requires (first as int) + n < 128
    ensures |s| == n
    ensures forall i :: 0 <= i < n ==> s[i] == ((first as int) + i) as char
  {
    seq(n, i requires 0 <= i < n => ((first as int) + i) as char)
  }

  function Digit(c: char): int {
    (c as int) - ('0' as int)
  }

  function Letter(c: char): int {
    (c as int) - ('A' as int)
  }

  /** The classes of characters and the upper case, by ASCII codes. */
  lemma CharacterClasses(c: char)
    ensures var n := c as int;
            (IsUpper(c) <==> 65 <= n <= 90) && (IsLower(c) <==> 97 <= n <= 122) &&
            (IsAlpha(c) <==> 65 <= n <= 90 || 97 <= n <= 122) && (IsDigit(c) <==> 48 <= n <= 57) &&
            ToUpper(c) as int == (if 97 <= n <= 122 then n - 32 else n) && Digit(c) == n - 48 && Letter(c) == n - 65
  {
  }

  lemma WordsAre(x: int, a: bit, b: bit)
    ensures U32(x) == x % 4294967296 && TWO_64 == 4294967296 * 4294967296
    ensures Xor(a, b) == (a as int + b as int) % 2
  {
  }

  function Repeat<T>(x: T, n: nat): (s: seq<T>)
    ensures |s| == n
    ensures forall i :: 0 <= i < n ==> s[i] == x
  {
    seq(n, _ => x)
  }
}
