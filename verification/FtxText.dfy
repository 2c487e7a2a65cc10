/** Text as numbers in the FT8 family: free text (base 42), non-standard callsigns (base 38), callsign
    hashes and hexadecimal telemetry (src/modes/ftx.c). */
module FtxText {
  import opened Machine
  import opened Bits

  const TEXT_CHARS: string := " " + Span('0', 10) + Span('A', 26) + "+-./?"
  const CALL_CHARS: string := " " + Span('0', 10) + Span('A', 26) + "/"
  const TEXT_LENGTH: nat := 13
  const CALL_LENGTH: nat := 11
  const HASH_PRIME: nat := 47055833459

  // ------------------------------------------------------- positional numerals

  function Pow(b: nat, n: nat): nat {
    if n == 0 then 1 else b * Pow(b, n - 1)
  }

  /** Position of the first `c` in `s`, or |s| when there is none. */
  function Find(s: string, c: char): (i: nat)
    ensures i <= |s|
    ensures i < |s| ==> s[i] == c
    ensures i == |s| <==> c !in s
  {
    if s == [] || s[0] == c then 0 else 1 + Find(s[1..], c)
  }

  /** `strchr` on the character set, with 0 (the blank) for characters outside it. */
  function CharValue(charset: string, c: char): (v: nat)
    requires |charset| > 0
    ensures v < |charset|
  {
    var i := Find(charset, c);
    if i < |charset| then i else 0
  }

  lemma {:induction false} FindFirst(s: string, c: char, i: nat)
    requires i < |s| && s[i] == c && forall j :: 0 <= j < i ==> s[j] != c
    ensures Find(s, c) == i
  {
    if i > 0 {
      FindFirst(s[1..], c, i - 1);
    }
  }

  /** The three character sets: digits and capitals follow each other from a place on, and some signs stand at
      their own. */
  lemma CharsAt(charset: string, first: nat)
    requires (charset == TEXT_CHARS && first == 1) || (charset == CALL_CHARS && first == 1)
             || (charset == HEX_CHARS && first == 0)
    ensures |charset| == if charset == TEXT_CHARS then 42 else if charset == CALL_CHARS then 38 else 16
    ensures first == 1 ==> charset[0] == ' '
    ensures forall k :: first <= k < first + 10 ==> charset[k] as int == k - first + 48
    ensures forall k :: first + 10 <= k < |charset| && k < first + 36 ==> charset[k] as int == k - first - 10 + 65
    ensures charset == TEXT_CHARS ==> charset[37..] == "+-./?"
    ensures charset == CALL_CHARS ==> charset[37] == '/'
  {
  }

  /** The values of characters in free text, by arithmetic: digits from 1, capitals from 11, five signs from 37,
      everything else 0. */
  lemma TextCharValue(c: char)
    ensures |TEXT_CHARS| == 42
    ensures CharValue(TEXT_CHARS, c) ==
            if '0' <= c <= '9' then c as int - 48 + 1
            else if 'A' <= c <= 'Z' then c as int - 65 + 11
            else if c == '+' then 37 else if c == '-' then 38 else if c == '.' then 39 else if c == '/' then 40
            else if c == '?' then 41 else 0
  {
    CharsAt(TEXT_CHARS, 1);
    hide TEXT_CHARS;
    var s := TEXT_CHARS;
    assert s[37] == s[37..][0] && s[38] == s[37..][1] && s[39] == s[37..][2];
    assert s[40] == s[37..][3] && s[41] == s[37..][4];
    var v := if '0' <= c <= '9' then c as int - 48 + 1
             else if 'A' <= c <= 'Z' then c as int - 65 + 11
             else if c == '+' then 37 else if c == '-' then 38 else if c == '.' then 39 else if c == '/' then 40
             else if c == '?' then 41 else 0;
    if v > 0 {
      FindFirst(s, c, v);
    } else if c == ' ' {
      FindFirst(s, c, 0);
    }
  }

  /** The values of characters in a full callsign. */
  lemma CallCharValue(c: char)
    ensures |CALL_CHARS| == 38
    ensures CharValue(CALL_CHARS, c) ==
            if '0' <= c <= '9' then c as int - 48 + 1
            else if 'A' <= c <= 'Z' then c as int - 65 + 11
            else if c == '/' then 37 else 0
  {
    CharsAt(CALL_CHARS, 1);
    hide CALL_CHARS;
    var v := if '0' <= c <= '9' then c as int - 48 + 1
             else if 'A' <= c <= 'Z' then c as int - 65 + 11
             else if c == '/' then 37 else 0;
    if v > 0 {
      FindFirst(CALL_CHARS, c, v);
    } else if c == ' ' {
      FindFirst(CALL_CHARS, c, 0);
    }
  }

  /** The values of hexadecimal digits. */
  lemma HexCharValue(c: char)
    ensures |HEX_CHARS| == 16
    ensures CharValue(HEX_CHARS, c) ==
            if '0' <= c <= '9' then c as int - 48 else if 'A' <= c <= 'F' then c as int - 65 + 10 else 0
  {
    CharsAt(HEX_CHARS, 0);
    hide HEX_CHARS;
    if '0' <= c <= '9' {
      FindFirst(HEX_CHARS, c, c as int - 48);
    } else if 'A' <= c <= 'F' {
      FindFirst(HEX_CHARS, c, c as int - 65 + 10);
    }
  }

  /** The base-|charset| number that a text spells. */
  function TextValue(charset: string, s: string): nat
    requires |charset| > 0
  {
    if s == [] then 0
    else TextValue(charset, s[..|s| - 1]) * |charset| + CharValue(charset, s[|s| - 1])
  }

  /** The text of `n` characters that spells a number. */
  function TextOf(charset: string, value: nat, n: nat): (s: string)
    requires |charset| > 0
    ensures |s| == n
    decreases n
  {
    if n == 0 then [] else
      TextOf(charset, value / |charset|, n - 1) + [charset[value % |charset|]]
  }

  /** A text with every character outside the character set replaced by the blank. */
  function Blanked(charset: string, s: string): (t: string)
    requires |charset| > 0
    ensures |t| == |s|
    ensures forall i :: 0 <= i < |s| ==> t[i] == if s[i] in charset then s[i] else charset[0]
  {
    seq(|s|, i requires 0 <= i < |s| => if s[i] in charset then s[i] else charset[0])
  }

  lemma {:induction false} TextValueBound(charset: string, s: string)
    requires |charset| > 0
    ensures TextValue(charset, s) < Pow(|charset|, |s|)
  {
    if s != [] {
      var front, d := s[..|s| - 1], CharValue(charset, s[|s| - 1]);
      TextValueBound(charset, front);
      HornerBound(TextValue(charset, front), d, |charset|, Pow(|charset|, |s| - 1));
    }
  }

  /** Spelling out the value of a text gives the text back, blanks for foreign characters. */
  lemma {:induction false} TextOfTextValue(charset: string, s: string)
    requires |charset| > 0
    ensures TextOf(charset, TextValue(charset, s), |s|) == Blanked(charset, s)
  {
    if s != [] {
      var front := s[..|s| - 1];
      TextOfTextValue(charset, front);
      DivMod(TextValue(charset, front), CharValue(charset, s[|s| - 1]), |charset|);
      assert Blanked(charset, s) == Blanked(charset, front) + [Blanked(charset, s)[|s| - 1]];
    }
  }

  /** A text is recovered from its number exactly when all its characters are in the set. */
  lemma TextRecovered(charset: string, s: string)
    requires |charset| > 0
    ensures TextOf(charset, TextValue(charset, s), |s|) == s <==> forall c :: c in s ==> c in charset
  {
    TextOfTextValue(charset, s);
    var t := Blanked(charset, s);
    if forall c :: c in s ==> c in charset {
      assert t == s;
    } else {
      var i :| 0 <= i < |s| && s[i] !in charset;
      assert t[i] != s[i];
    }
  }

  predicate Distinct(s: string) {
    forall i, k :: 0 <= i < k < |s| ==> s[i] != s[k]
  }

  lemma LastDigit(charset: string, value: nat, n: nat, q: nat, r: nat)
    requires n > 0 && |charset| > 0 && q == value / |charset| && r == value % |charset|
    ensures TextOf(charset, value, n)[..n - 1] == TextOf(charset, q, n - 1)
    ensures TextOf(charset, value, n)[n - 1] == charset[r]
  {
  }

  lemma QuotientDigit(x: nat, base: nat, p: nat)
    requires base > 0 && x < base * p
    ensures 0 <= x / base < p && 0 <= x % base < base && x / base * base + x % base == x
  {
    DivLess(x, base, p);
  }

  lemma TextValueStep(charset: string, t: string, r: nat)
    requires Distinct(charset) && t != [] && r < |charset| && t[|t| - 1] == charset[r]
    ensures TextValue(charset, t) == TextValue(charset, t[..|t| - 1]) * |charset| + r
  {
    var i := Find(charset, charset[r]);
    assert charset[r] in charset;
    assert i == r;
  }

  /** Every number below base^n is the value of its own spelling. */
  lemma {:induction false} TextValueOfTextOf(charset: string, x: nat, n: nat)
    requires |charset| > 0 && Distinct(charset) && x < Pow(|charset|, n)
    ensures TextValue(charset, TextOf(charset, x, n)) == x
    decreases n
  {
    if n > 0 {
      PowStep(|charset|, n);
      QuotientDigit(x, |charset|, Pow(|charset|, n - 1));
      var q, r := x / |charset|, x % |charset|;
      hide Pow;
      LastDigit(charset, x, n, q, r);
      TextValueOfTextOf(charset, q, n - 1);
      hide TextOf;
      TextValueStep(charset, TextOf(charset, x, n), r);
    }
  }

  // ------------------------------------------------------------- justification

  function Clipped(s: string, n: nat): string {
    Upper(if |s| > n then s[..n] else s)
  }

  /** What the C arrays can hold. */
  type FreeFormText = s: string | |s| <= TEXT_LENGTH
  type FullCallsign = s: string | |s| <= CALL_LENGTH

  /** Free text is right-justified in 13 characters. */
  function RightJustified(text: string): (s: string)
    ensures |s| == TEXT_LENGTH
  {
    var u := Clipped(text, TEXT_LENGTH);
    Repeat(' ', TEXT_LENGTH - |u|) + u
  }

  /** A callsign is left-justified in 11 characters. */
  function LeftJustified(callsign: string): (s: string)
    ensures |s| == CALL_LENGTH
  {
    var u := Clipped(callsign, CALL_LENGTH);
    u + Repeat(' ', CALL_LENGTH - |u|)
  }

  // ------------------------------------------------------- big-endian bytes

  function BytesValue(s: seq<byte>): nat {
    if s == [] then 0 else BytesValue(s[..|s| - 1]) * 256 + s[|s| - 1]
  }

  lemma {:induction false} BytesValuePrepend(b: byte, s: seq<byte>)
    ensures BytesValue([b] + s) == b * Pow(256, |s|) + BytesValue(s)
  {
    if s == [] {
      assert [b] + s == [b];
      assert BytesValue([b]) == b;
    } else {
      var front := s[..|s| - 1];
      BytesValuePrepend(b, front);
      assert ([b] + s)[..|s|] == [b] + front;
      assert b * Pow(256, |s| - 1) * 256 == b * Pow(256, |s|);
    }
  }

  lemma {:induction false} BytesValueBound(s: seq<byte>)
    ensures BytesValue(s) < Pow(256, |s|)
  {
    if s != [] {
      BytesValueBound(s[..|s| - 1]);
    }
  }

  /** The `n` low bytes of a number, big-endian. */
  function ValueBytes(v: nat, n: nat): (s: seq<byte>)
    ensures |s| == n
  {
    if n == 0 then [] else ValueBytes(v / 256, n - 1) + [v % 256]
  }

  lemma {:induction false} ValueOfValueBytes(v: nat, n: nat)
    requires v < Pow(256, n)
    ensures BytesValue(ValueBytes(v, n)) == v
  {
    if n > 0 {
      ValueOfValueBytes(v / 256, n - 1);
      assert ValueBytes(v, n)[..n - 1] == ValueBytes(v / 256, n - 1);
    }
  }

  /** Buffers of one length that spell the same number are the same. */
  lemma {:induction false} BytesValueInjective(s: seq<byte>, t: seq<byte>)
    requires |s| == |t| && BytesValue(s) == BytesValue(t)
    ensures s == t
  {
    if s != [] {
      var n := |s| - 1;
      DivMod(BytesValue(s[..n]), s[n], 256);
      DivMod(BytesValue(t[..n]), t[n], 256);
      BytesValueInjective(s[..n], t[..n]);
      assert s == s[..n] + [s[n]] && t == t[..n] + [t[n]];
    }
  }

  lemma LeftShift(v: nat, n: nat)
    requires n > 0
    ensures v * Pow2(n) == 2 * (v * Pow2(n - 1))
  {
    Doubled(v, Pow2(n - 1));
  }

  lemma Doubled(v: nat, p: nat)
    ensures v * (2 * p) == 2 * (v * p)
  {
  }

  lemma {:induction false} BitsValueConcat(a: seq<bit>, b: seq<bit>)
    ensures BitsValue(a + b) == BitsValue(a) * Pow2(|b|) + BitsValue(b)
  {
    if b == [] {
      assert a + b == a;
    } else {
      var front := b[..|b| - 1];
      assert (a + b)[..|a + b| - 1] == a + front && (a + b)[|a + b| - 1] == b[|b| - 1];
      BitsValueConcat(a, front);
      LeftShift(BitsValue(a), |b|);
      hide Pow2;
    }
  }

  /** A byte buffer and its bit string spell the same number. */
  lemma {:induction false} BitsValueOfBytes(buf: seq<byte>)
    ensures BitsValue(AllBits(buf)) == BytesValue(buf)
  {
    if buf != [] {
      hide BitsValue;
      hide AllBits;
      BitsValueOfBytes(buf[..|buf| - 1]);
      BitsValueLastByte(buf);
    }
  }

  lemma BitsValueLastByte(buf: seq<byte>)
    requires buf != []
    ensures BitsValue(AllBits(buf)) == BitsValue(AllBits(buf[..|buf| - 1])) * 256 + buf[|buf| - 1]
  {
    hide BitsValue;
    hide AllBits;
    hide Pow2;
    var n := |buf| - 1;
    LastByteOfBits(buf);
    BitsValueConcat(AllBits(buf[..n]), AllBits(buf)[8 * n..8 * n + 8]);
    ByteFromBits(buf, n);
    Pow2Values();
  }

  lemma LastByteOfBits(buf: seq<byte>)
    requires buf != []
    ensures var n := |buf| - 1;
            AllBits(buf) == AllBits(buf[..n]) + AllBits(buf)[8 * n..8 * n + 8]
  {
    var n, bits := |buf| - 1, AllBits(buf);
    assert AllBits(buf[..n]) == bits[..8 * n];
  }

  // ---------------------------------------------------------------- free text

  lemma CarryStep(b: byte, carry: nat, p: nat, low: nat, lowBefore: nat, v: nat)
    requires carry <= 41
    requires low + carry * p == 42 * lowBefore + v
    ensures var prod := b * 42 + carry;
            prod / 256 <= 41 &&
            (prod % 256) * p + low + (prod / 256) * (256 * p) == 42 * (b * p + lowBefore) + v
  {
    var prod := b * 42 + carry;
    var d, m := prod / 256, prod % 256;
    assert prod == d * 256 + m;
    assert m * p + d * (256 * p) == (d * 256 + m) * p == (b * 42 + carry) * p == 42 * (b * p) + carry * p;
  }

  lemma TextFits(s: string)
    requires |s| <= TEXT_LENGTH
    ensures TextValue(TEXT_CHARS, s) < Pow(42, TEXT_LENGTH) < Pow2(71) < Pow(256, 9)
    ensures |TEXT_CHARS| == 42
  {
    TextValueBound(TEXT_CHARS, s);
    PowMonotone(42, |s|, TEXT_LENGTH);
    TextNumbers();
  }

  lemma {:induction false} PowMonotone(b: nat, m: nat, n: nat)
    requires b > 0 && m <= n
    ensures 0 < Pow(b, m) <= Pow(b, n)
  {
    if m < n {
      PowMonotone(b, m, n - 1);
      MulMono(1, b, Pow(b, n - 1));
    } else if m > 0 {
      PowMonotone(b, m - 1, m - 1);
    }
  }

  lemma TextNumbers()
    ensures Pow(42, 13) == 1265437718438866624512
    ensures Pow2(71) == 2361183241434822606848
    ensures Pow(256, 9) == 4722366482869645213696
    ensures Pow(38, 11) == 238572050223552512 < Pow2(58) == 288230376151711744
  {
    Pow2Values();
    Pow2Sum(32, 32);
    Pow2Sum(64, 7);
    Pow2Sum(32, 26);
    Pow2Sum(16, 10);
  }

  /** The bytes done so far and the carry are 42 times the same bytes before, and the digit. */
  predicate Carried(tail: seq<byte>, before: seq<byte>, carry: nat, value: nat) {
    carry <= 41 && BytesValue(tail) + carry * Pow(256, |before|) == 42 * BytesValue(before) + value
  }

  lemma CarriedStep(b: byte, tail: seq<byte>, before: seq<byte>, carry: nat, value: nat)
    requires |tail| == |before| && Carried(tail, before, carry, value)
    ensures var prod := b as int * 42 + carry;
            prod / 256 >= 0 && Carried([prod % 256] + tail, [b] + before, prod / 256, value)
  {
    hide Pow;
    hide BytesValue;
    var prod, p := b as int * 42 + carry, Pow(256, |before|);
    CarryStep(b, carry, p, BytesValue(tail), BytesValue(before), value);
    BytesValuePrepend(b, before);
    BytesValuePrepend(prod % 256, tail);
    PowStep(256, |before| + 1);
  }

  lemma CarriedStart(value: nat)
    requires value <= 41
    ensures Carried([], [], value, value)
  {
  }

  lemma CarriedEnd(tail: seq<byte>, before: seq<byte>, carry: nat, value: nat)
    requires Carried(tail, before, carry, value)
    requires BytesValue(before) * 42 + value < Pow(256, |before|)
    ensures BytesValue(tail) == BytesValue(before) * 42 + value
  {
    hide BytesValue;
    if carry > 0 {
      MulMono(1, carry, Pow(256, |before|));
    }
  }

  /** One pass over the 9 bytes: multiply by 42 and add. Every carry stays at most 41. */
  method MultiplyAdd(result: array<byte>, value: nat)
    requires result.Length == 9 && value <= 41
    requires BytesValue(result[..]) * 42 + value < Pow(256, 9)
    modifies result
    ensures BytesValue(result[..]) == old(BytesValue(result[..])) * 42 + value
  {
    hide Pow;
    hide BytesValue;
    hide Carried;
    var carry: nat := value;
    ghost var was := result[..];
    var j := 8;
    CarriedStart(value);
    assert was[9..] == [] && result[9..] == [];
    while j >= 0
      invariant -1 <= j <= 8
      invariant result[..j + 1] == was[..j + 1]
      invariant Carried(result[j + 1..], was[j + 1..], carry, value)
    {
      var prod := result[j] as int * 42 + carry;
      ghost var tail := result[j + 1..];
      assert result[j] == result[..j + 1][j] == was[..j + 1][j] == was[j];
      CarriedStep(was[j], tail, was[j + 1..], carry, value);
      assert was[j..] == [was[j]] + was[j + 1..];
      result[j] := prod % 256;
      carry := prod / 256;
      assert result[j..] == [result[j]] + tail;
      j := j - 1;
    }
    assert j + 1 == 0;
    assert result[j + 1..] == result[..] && was[j + 1..] == was;
    CarriedEnd(result[..], was, carry, value);
  }

  lemma PowStep(b: nat, n: nat)
    requires n > 0
    ensures Pow(b, n) == b * Pow(b, n - 1)
  {
  }

  /** The nine bytes of a free text: the big-endian base-42 value of the right-justified text. */
  function F71(text: string): (buf: seq<byte>)
    ensures |buf| == 9
  {
    ValueBytes(TextValue(TEXT_CHARS, RightJustified(text)), 9)
  }

  lemma F71Value(text: string)
    ensures BytesValue(F71(text)) == TextValue(TEXT_CHARS, RightJustified(text))
  {
    hide TextValue;
    hide Pow;
    TextFits(RightJustified(text));
    ValueOfValueBytes(TextValue(TEXT_CHARS, RightJustified(text)), 9);
  }

  /** The 9-byte buffer holds the exact base-42 value of the right-justified text, below 2^71. */
  method EncodeF71(text: string) returns (result: array<byte>)
    ensures fresh(result) && result.Length == 9
    ensures BytesValue(result[..]) == TextValue(TEXT_CHARS, RightJustified(text)) < Pow2(71)
    ensures result[..] == F71(text)
  {
    hide F71;
    hide BytesValue;
    hide RightJustified;
    hide Pow;
    hide Pow2;
    hide CharValue;
    var buf := RightJustified(text);
    result := new byte[9](_ => 0);
    assert result[..] == Repeat(0 as byte, 9);
    ZeroBytes(9);
    for i := 0 to TEXT_LENGTH
      invariant BytesValue(result[..]) == TextValue(TEXT_CHARS, buf[..i])
    {
      assert buf[..i + 1][..i] == buf[..i];
      TextFits(buf[..i + 1]);
      MultiplyAdd(result, CharValue(TEXT_CHARS, buf[i]));
    }
    assert buf[..TEXT_LENGTH] == buf;
    TextFits(buf);
    F71Value(text);
    BytesValueInjective(result[..], F71(text));
  }

  lemma {:induction false} ZeroBytes(n: nat)
    ensures BytesValue(Repeat(0 as byte, n)) == 0
  {
    if n > 0 {
      assert Repeat(0 as byte, n)[..n - 1] == Repeat(0 as byte, n - 1);
      ZeroBytes(n - 1);
    }
  }

  predicate Blank(s: string) {
    forall i :: 0 <= i < |s| ==> s[i] == ' '
  }

  lemma CharSetsDistinct()
    ensures Distinct(TEXT_CHARS) && |TEXT_CHARS| == 42 && TEXT_CHARS[0] == ' '
    ensures Distinct(CALL_CHARS) && |CALL_CHARS| == 38 && CALL_CHARS[0] == ' '
  {
  }

  /** Two texts get the same 9 bytes exactly when they agree after justification and blanking. */
  lemma TextBuffersInjective(text1: string, text2: string)
    ensures F71(text1) == F71(text2)
            <==> Blanked(TEXT_CHARS, RightJustified(text1)) == Blanked(TEXT_CHARS, RightJustified(text2))
  {
    hide F71;
    hide TextValue;
    hide TextOf;
    hide Blanked;
    hide RightJustified;
    hide BytesValue;
    F71Value(text1);
    F71Value(text2);
    if F71(text1) != F71(text2) && BytesValue(F71(text1)) == BytesValue(F71(text2)) {
      BytesValueInjective(F71(text1), F71(text2));
    }
    BlankedValue(TEXT_CHARS, RightJustified(text1));
    BlankedValue(TEXT_CHARS, RightJustified(text2));
    TextOfTextValue(TEXT_CHARS, RightJustified(text1));
    TextOfTextValue(TEXT_CHARS, RightJustified(text2));
  }

  lemma BlankedValue(charset: string, s: string)
    requires charset == TEXT_CHARS
    ensures TextValue(charset, Blanked(charset, s)) == TextValue(charset, s)
  {
    CharSetsDistinct();
    TextValueBound(charset, s);
    TextOfTextValue(charset, s);
    TextValueOfTextOf(charset, TextValue(charset, s), |s|);
  }

  /** The payload takes the top 71 of the 72 bits, so its field holds half the right-aligned value. */
  lemma FieldIsHalf(buf: seq<byte>)
    requires |buf| == 9
    ensures BitsValue(AllBits(buf)[..71]) == BytesValue(buf) / 2
  {
    BitsValueOfBytes(buf);
    assert AllBits(buf)[..72] == AllBits(buf);
  }

  /** The text a receiver spells out from the 71-bit field of a free-text message. */
  function ReceivedText(text: string): string {
    TextOf(TEXT_CHARS, TextValue(TEXT_CHARS, RightJustified(text)) / 2, TEXT_LENGTH)
  }

  lemma {:induction false} BlankValue(charset: string, s: string)
    requires |charset| > 0 && charset[0] == ' ' && Blank(s)
    ensures TextValue(charset, s) == 0
  {
    if s != [] {
      BlankValue(charset, s[..|s| - 1]);
    }
  }

  /** Because the field holds half the value, free text survives the payload exactly when it is blank. */
  lemma FreeTextReceived(text: string)
    ensures ReceivedText(text) == RightJustified(text) <==> Blank(RightJustified(text))
  {
    hide Pow;
    hide Pow2;
    hide TextValue;
    hide TextOf;
    hide RightJustified;
    var s := RightJustified(text);
    var v := TextValue(TEXT_CHARS, s);
    CharSetsDistinct();
    TextFits(s);
    if Blank(s) {
      BlankValue(TEXT_CHARS, s);
      TextOfTextValue(TEXT_CHARS, s);
    } else if ReceivedText(text) == s {
      TextValueOfTextOf(TEXT_CHARS, v / 2, TEXT_LENGTH);
      assert v == 0;
      TextOfTextValue(TEXT_CHARS, s);
      ZeroSpelling(TEXT_LENGTH);
    }
  }

  lemma {:induction false} ZeroSpelling(n: nat)
    ensures Blank(TextOf(TEXT_CHARS, 0, n))
  {
    if n > 0 {
      ZeroSpelling(n - 1);
    }
  }

  // ------------------------------------------------------- callsigns and hashes

  function EncodeC58(callsign: string): nat {
    TextValue(CALL_CHARS, LeftJustified(callsign))
  }

  method ComputeC58(callsign: string) returns (n58: nat)
    ensures n58 == EncodeC58(callsign)
    ensures n58 < Pow2(58)
  {
    var buf := LeftJustified(callsign);
    n58 := 0;
    for i := 0 to CALL_LENGTH
      invariant n58 == TextValue(CALL_CHARS, buf[..i])
    {
      assert buf[..i + 1][..i] == buf[..i];
      n58 := n58 * 38 + CharValue(CALL_CHARS, buf[i]);
    }
    assert buf[..CALL_LENGTH] == buf;
    C58Bound(callsign);
  }

  lemma C58Bound(callsign: string)
    ensures EncodeC58(callsign) < Pow2(58)
  {
    TextValueBound(CALL_CHARS, LeftJustified(callsign));
    TextNumbers();
  }

  /** The 58-bit field gives the padded callsign back exactly when its characters are all in the set. */
  lemma C58Recovered(callsign: string)
    ensures TextOf(CALL_CHARS, EncodeC58(callsign), CALL_LENGTH) == LeftJustified(callsign)
            <==> forall c :: c in LeftJustified(callsign) ==> c in CALL_CHARS
  {
    TextRecovered(CALL_CHARS, LeftJustified(callsign));
  }

  /** The multiplicative hash: the top `nbits` bits of the 64-bit wrapped product; 0 for other widths. */
  function HashCallsign(callsign: string, nbits: int): nat {
    if nbits != 10 && nbits != 12 && nbits != 22 then 0
    else TopBits(HASH_PRIME * EncodeC58(callsign) % TWO_64, nbits)
  }

  /** The top `nbits` bits of a 64-bit word: `x >> (64 - nbits)`. */
  function TopBits(x: nat, nbits: nat): nat
    requires nbits <= 64
  {
    DivNat(x, Pow2(64 - nbits));
    x / Pow2(64 - nbits)
  }

  lemma TopBitsNest(x: nat, m: nat, n: nat)
    requires m <= n <= 64
    ensures TopBits(x, m) == TopBits(x, n) / Pow2(n - m)
  {
    Pow2Sum(64 - n, n - m);
    DivDiv(x, Pow2(64 - n), Pow2(n - m));
  }

  lemma TopBitsBound(x: nat, n: nat)
    requires n <= 64 && x < Pow2(64)
    ensures TopBits(x, n) < Pow2(n)
  {
    Pow2Sum(n, 64 - n);
    DivLess(x, Pow2(64 - n), Pow2(n));
  }

  lemma HashWidths()
    ensures Pow2(64) == TWO_64 && Pow2(10) == 1024 && Pow2(12) == 4096 && Pow2(22) == 0x40_0000
  {
    Pow2Values();
    Pow2Sum(32, 32);
    Pow2Sum(10, 12);
  }

  /** The 10- and 12-bit hashes are the leading bits of the 22-bit hash. */
  lemma HashesNest(callsign: string)
    ensures HashCallsign(callsign, 12) == HashCallsign(callsign, 22) / 1024
    ensures HashCallsign(callsign, 10) == HashCallsign(callsign, 22) / 4096
    ensures HashCallsign(callsign, 22) < 0x40_0000
  {
    var x := HASH_PRIME * EncodeC58(callsign) % TWO_64;
    hide EncodeC58;
    hide TopBits;
    TopBitsNest(x, 12, 22);
    TopBitsNest(x, 10, 22);
    HashWidths();
    TopBitsBound(x, 22);
  }

  /** The hash in numbers: multiply by 47055833459, keep 64 bits, take the top 10, 12 or 22 of them. */
  lemma HashIs(callsign: string)
    ensures var x := 47055833459 * EncodeC58(callsign) % 0x1_0000_0000_0000_0000;
            HashCallsign(callsign, 22) == x / 0x400_0000_0000 &&
            HashCallsign(callsign, 12) == x / 0x10_0000_0000_0000 &&
            HashCallsign(callsign, 10) == x / 0x40_0000_0000_0000
    ensures forall nbits: int :: nbits != 10 && nbits != 12 && nbits != 22 ==> HashCallsign(callsign, nbits) == 0
  {
    hide EncodeC58;
    hide Pow2;
    LargePowers();
  }

  lemma LargePowers()
    ensures Pow2(42) == 0x400_0000_0000 && Pow2(52) == 0x10_0000_0000_0000 && Pow2(54) == 0x40_0000_0000_0000
  {
    HashWidths();
    Pow2Values();
    Pow2Sum(10, 32);
    Pow2Sum(10, 42);
    Pow2Sum(12, 42);
    assert Pow2(10) == 1024;
  }

  lemma OneMore(s: string, c: char)
    ensures |CALL_CHARS| == 38
    ensures TextValue(CALL_CHARS, s + [c]) ==
            TextValue(CALL_CHARS, s) * 38 +
            if '0' <= c <= '9' then c as int - 48 + 1
            else if 'A' <= c <= 'Z' then c as int - 65 + 11
            else if c == '/' then 37 else 0
  {
    CallCharValue(c);
    hide CharValue;
    hide CALL_CHARS;
    assert (s + [c])[..|s|] == s;
  }

  /** The worked example PJ4/K1ABC. */
  lemma CallExample()
    ensures EncodeC58("PJ4/K1ABC") == 166563865821947300
  {
    hide TextValue;
    hide CALL_CHARS;
    var s0: string := "";
    NoText();
    var s1 := s0 + ['P'];
    OneMore(s0, 'P');
    var s2 := s1 + ['J'];
    OneMore(s1, 'J');
    var s3 := s2 + ['4'];
    OneMore(s2, '4');
    var s4 := s3 + ['/'];
    OneMore(s3, '/');
    var s5 := s4 + ['K'];
    OneMore(s4, 'K');
    var s6 := s5 + ['1'];
    OneMore(s5, '1');
    var s7 := s6 + ['A'];
    OneMore(s6, 'A');
    var s8 := s7 + ['B'];
    OneMore(s7, 'B');
    var s9 := s8 + ['C'];
    OneMore(s8, 'C');
    var s10 := s9 + [' '];
    OneMore(s9, ' ');
    var s11 := s10 + [' '];
    OneMore(s10, ' ');
    assert LeftJustified("PJ4/K1ABC") == s11;
  }

  lemma NoText()
    ensures TextValue(CALL_CHARS, "") == 0
  {
  }

  /** Its hashes. */
  lemma HashExample()
    ensures HashCallsign("PJ4/K1ABC", 22) == 1420834 && HashCallsign("PJ4/K1ABC", 12) == 1387 &&
            HashCallsign("PJ4/K1ABC", 10) == 346
  {
    hide EncodeC58;
    hide HashCallsign;
    CallExample();
    HashIs("PJ4/K1ABC");
  }

  method ComputeHash(callsign: string, nbits: int) returns (h: nat)
    ensures h == HashCallsign(callsign, nbits)
  {
    if nbits != 10 && nbits != 12 && nbits != 22 {
      return 0;
    }
    var n := ComputeC58(callsign);
    h := TopBits(HASH_PRIME * n % TWO_64, nbits);
  }

  // ----------------------------------------------------------------- telemetry

  const HEX_CHARS: string := Span('0', 10) + Span('A', 6)
  const HEX_LENGTH: nat := 18

  /** The hexadecimal digits used: at most 18, and with 18 of them the first one at most 7. */
  function HexDigits(hex: string): (u: string)
    ensures |u| <= HEX_LENGTH
  {
    var u := Clipped(hex, HEX_LENGTH);
    if |u| == HEX_LENGTH && CharValue(HEX_CHARS, u[0]) > 7 then u[0 := '7'] else u
  }

  /** Telemetry is the first 18 hexadecimal digits in capitals; of a full 18 the first is cut to 7. */
  lemma HexDigitsAre(hex: string)
    ensures var n, u := if |hex| > 18 then 18 else |hex|, HexDigits(hex);
            |u| == n && (forall i :: 0 < i < n ==> u[i] == ToUpper(hex[i])) &&
            (n > 0 ==>
               var c := ToUpper(hex[0]);
               u[0] == if n == 18 && (c == '8' || c == '9' || 'A' <= c <= 'F') then '7' else c)
  {
    if hex != [] {
      HexCharValue(ToUpper(hex[0]));
    }
    hide HEX_CHARS;
  }

  predicate SpelledBy(buf: seq<byte>, t: string) {
    |t| == 2 * |buf| &&
    forall i :: 0 <= i < |buf| ==>
      buf[i] == CharValue(HEX_CHARS, t[2 * i]) * 16 + CharValue(HEX_CHARS, t[2 * i + 1])
  }

  lemma {:induction false} SpelledValue(buf: seq<byte>, t: string)
    requires SpelledBy(buf, t)
    ensures BytesValue(buf) == TextValue(HEX_CHARS, t)
  {
    hide HEX_CHARS;
    if buf != [] {
      hide TextValue;
      hide CharValue;
      var n := |buf| - 1;
      SpelledValue(buf[..n], t[..2 * n]);
      LastTwoDigits(t);
    }
  }

  lemma LastTwoDigits(t: string)
    requires |t| >= 2
    ensures var n := |t| - 2;
            TextValue(HEX_CHARS, t) ==
            (TextValue(HEX_CHARS, t[..n]) * 16 + CharValue(HEX_CHARS, t[n])) * 16 + CharValue(HEX_CHARS, t[n + 1])
  {
    hide CharValue;
    var n := |t| - 2;
    assert t[..n + 1][..n] == t[..n];
    assert |HEX_CHARS| == 16;
  }

  lemma {:induction false} LeadingZeros(n: nat, t: string)
    ensures TextValue(HEX_CHARS, Repeat('0', n) + t) == TextValue(HEX_CHARS, t)
  {
    var s := Repeat('0', n) + t;
    if t != [] {
      assert s[..|s| - 1] == Repeat('0', n) + t[..|t| - 1];
      LeadingZeros(n, t[..|t| - 1]);
    } else if n > 0 {
      assert s[..|s| - 1] == Repeat('0', n - 1) + t;
      LeadingZeros(n - 1, t);
    }
  }

  /** Telemetry is right-aligned: the 9 bytes hold the value of the hexadecimal digits, below 2^71. */
  method EncodeT71(hex: string) returns (output: array<byte>)
    ensures fresh(output) && output.Length == 9
    ensures BytesValue(output[..]) == TextValue(HEX_CHARS, HexDigits(hex))
    ensures output[0] < 0x80
  {
    hide TextValue;
    hide BytesValue;
    hide HexDigits;
    hide CharValue;
    TopNibble(hex);
    ZeroDigit();
    output := new byte[9](_ => 0);
    var u := HexDigits(hex);
    var start := HEX_LENGTH - |u|;
    ghost var t := Repeat('0', start) + u;
    for i := 0 to |u|
      invariant forall k :: 0 <= k < 9 ==>
        output[k] == NibbleOf(t, start + i, 2 * k) * 16 + NibbleOf(t, start + i, 2 * k + 1)
    {
      var nibble := CharValue(HEX_CHARS, u[i]);
      var byteIdx, bitOff := (start + i) * 4 / 8, (start + i) * 4 % 8;
      if bitOff == 0 {
        output[byteIdx] := output[byteIdx] + nibble * 16;
      } else {
        output[byteIdx] := output[byteIdx] + nibble;
      }
    }
    assert SpelledBy(output[..], t);
    SpelledValue(output[..], t);
    LeadingZeros(start, u);
    assert t[0] == if start > 0 then '0' else u[0];
  }

  lemma ZeroDigit()
    ensures CharValue(HEX_CHARS, '0') == 0 && |HEX_CHARS| == 16
  {
  }

  /** Digit `k` of the spelling when only the first `done` digits have been placed. */
  function NibbleOf(t: string, done: nat, k: nat): nat
    requires k < |t|
  {
    if k < done then CharValue(HEX_CHARS, t[k]) else 0
  }

  lemma TopNibble(hex: string)
    ensures |HexDigits(hex)| == HEX_LENGTH ==> CharValue(HEX_CHARS, HexDigits(hex)[0]) <= 7
  {
  }
}
