/** The numeric fields of the FT8-family messages and their inverses (src/modes/ftx.c). */
module FtxFields {
  import opened Machine

  // ------------------------------------------------------------------- c28

  datatype C28 =
    | De
    | Qrz
    | Cq
    | CqMod(modifier: string)
    | Hash22(hash: nat)
    | Callsign(call: string)

  const FIRST_HASH: nat := 2063592
  const FIRST_CALLSIGN: nat := 6257896

  /** What the C type can hold: NUL-terminated arrays of 5 and 7 characters, and a `uint32_t`. */
  predicate Storable(t: C28) {
    match t
    case CqMod(m) => |m| <= 4
    case Hash22(h) => h < TWO_32
    case Callsign(c) => |c| <= 6
    case _ => true
  }

  /** A stored token. */
  type Token = t: C28 | Storable(t) witness De

  predicate AllDigits(s: string) {
    forall i :: 0 <= i < |s| ==> IsDigit(s[i])
  }

  predicate AllLetters(s: string) {
    forall i :: 0 <= i < |s| ==> IsUpper(s[i])
  }

  function ModifierCharValue(c: char): nat {
    if IsUpper(c) then (Letter(c) + 1) as nat else 0
  }

  /** Base-27 value of an upper-cased CQ modifier. */
  function ModifierValue(u: string): nat {
    if u == [] then 0 else ModifierValue(u[..|u| - 1]) * 27 + ModifierCharValue(u[|u| - 1])
  }

  /** The last digit among the first three characters, or -1. */
  function DigitIndex(u: string): (d: int)
    ensures -1 <= d <= 2 && d < |u|
    ensures d >= 0 ==> IsDigit(u[d])
  {
    if |u| > 2 && IsDigit(u[2]) then 2
    else if |u| > 1 && IsDigit(u[1]) then 1
    else if |u| > 0 && IsDigit(u[0]) then 0
    else -1
  }

  /** A callsign moved so that its digit is the third of six characters; blank without a digit. */
  function Aligned(u: string): (p: string)
    requires |u| <= 6
    ensures |p| == 6
  {
    if DigitIndex(u) < 0 then Repeat(' ', 6)
    else (Repeat(' ', 2 - DigitIndex(u)) + u + Repeat(' ', 6))[..6]
  }

  /** The digit that counts is the last one among the first three characters, and alignment makes it the third:
      a character moves by as much as the digit does, and everything else is blank. */
  lemma AlignedIs(u: string, k: nat)
    requires |u| <= 6 && k < 6
    ensures var d := DigitIndex(u);
            (d == -1 <==> forall j :: 0 <= j < 3 && j < |u| ==> !IsDigit(u[j])) &&
            (d >= 0 ==> IsDigit(u[d]) && forall j :: d < j < 3 && j < |u| ==> !IsDigit(u[j])) &&
            Aligned(u)[k] == if d >= 0 && 0 <= k - (2 - d) < |u| then u[k - (2 - d)] else ' '
  {
  }

  // `strchr` in the four alphabets, with 0 for characters outside them.

  function Index37(c: char): (v: nat)
    ensures v < 37
  {
    if IsDigit(c) then (Digit(c) + 1) as nat else if IsUpper(c) then (Letter(c) + 11) as nat else 0
  }

  function Index36(c: char): (v: nat)
    ensures v < 36
  {
    if IsDigit(c) then Digit(c) as nat else if IsUpper(c) then (Letter(c) + 10) as nat else 0
  }

  function Index10(c: char): (v: nat)
    ensures v < 10
  {
    if IsDigit(c) then Digit(c) as nat else 0
  }

  function Index27(c: char): (v: nat)
    ensures v < 27
  {
    if IsUpper(c) then (Letter(c) + 1) as nat else 0
  }

  function AlignedNumber(p: string): nat
    requires |p| == 6
  {
    FIRST_CALLSIGN + Index37(p[0]) * 7085880 + Index36(p[1]) * 196830 + Index10(p[2]) * 19683 +
    Index27(p[3]) * 729 + Index27(p[4]) * 27 + Index27(p[5])
  }

  function EncodeC28(t: C28): nat
    requires Storable(t)
  {
    match t
    case De => 0
    case Qrz => 1
    case Cq => 2
    case CqMod(m) =>
      if |m| == 0 then 2
      else if |m| == 3 && AllDigits(m) then (3 + Digit(m[0]) * 100 + Digit(m[1]) * 10 + Digit(m[2])) as nat
      else 1003 + ModifierValue(Upper(m))
    case Hash22(h) => U32(FIRST_HASH + h)
    case Callsign(c) => AlignedNumber(Aligned(Upper(c)))
  }

  method ComputeC28(t: C28) returns (n28: nat)
    requires Storable(t)
    ensures n28 == EncodeC28(t)
  {
    match t {
      case De => n28 := 0;
      case Qrz => n28 := 1;
      case Cq => n28 := 2;
      case CqMod(m) => n28 := ComputeModifier(m);
      case Hash22(h) => n28 := U32(FIRST_HASH + h);
      case Callsign(c) => n28 := ComputeCallsign(c);
    }
  }

  method ComputeModifier(m: string) returns (n28: nat)
    requires |m| <= 4
    ensures n28 == EncodeC28(CqMod(m))
  {
    if |m| == 0 {
      return 2;
    }
    var isDigits := true;
    for i := 0 to |m|
      invariant isDigits && AllDigits(m[..i])
    {
      if !IsDigit(m[i]) {
        isDigits := false;
        break;
      }
    }
    assert m[..|m|] == m;
    if isDigits && |m| == 3 {
      return 3 + Digit(m[0]) * 100 + Digit(m[1]) * 10 + Digit(m[2]);
    }
    var u := Upper(m);
    var val := 0;
    for k := 0 to |m|
      invariant val == ModifierValue(u[..k])
    {
      assert u[..k + 1][..k] == u[..k];
      val := val * 27 + ModifierCharValue(ToUpper(m[k]));
    }
    assert u[..|m|] == u;
    return 1003 + val;
  }

  method ComputeCallsign(c: string) returns (n28: nat)
    requires |c| <= 6
    ensures n28 == EncodeC28(Callsign(c))
  {
    var u := Upper(c);
    var dIdx := -1;
    var i := 0;
    while i < |u| && i <= 2
      invariant 0 <= i <= |u| && i <= 3
      invariant dIdx == DigitIndex(u[..i])
    {
      assert u[..i + 1][..i] == u[..i];
      if IsDigit(u[i]) {
        dIdx := i;
      }
      i := i + 1;
    }
    assert dIdx == DigitIndex(u);
    var std6 := new char[6](_ => ' ');
    if dIdx >= 0 {
      var shift := 2 - dIdx;
      ghost var full := Repeat(' ', shift) + u + Repeat(' ', 6);
      for k := 0 to |u|
        invariant forall j :: 0 <= j < 6 ==> std6[j] == if j < shift + k then full[j] else ' '
      {
        if k + shift < 6 {
          std6[k + shift] := u[k];
        }
      }
      assert std6[..] == full[..6];
    } else {
      assert std6[..] == Repeat(' ', 6);
    }
    n28 := AlignedNumber(std6[..]);
  }

  // The inverse.

  function Alnum(v: nat): char
    requires v < 36
  {
    if v < 10 then (('0' as int) + v) as char else (('A' as int) + v - 10) as char
  }

  function BlankOr(v: nat, base: nat): char
    requires v < 37 && (base == 0 || (base == 10 && v < 27))
  {
    if v == 0 then ' ' else Alnum(v - 1 + base)
  }

  /** The six aligned characters of a callsign number. */
  function AlignedCall(m: nat): (p: string)
    ensures |p| == 6
  {
    var q5 := m / 27;
    var q4 := q5 / 27;
    var q3 := q4 / 27;
    var q2 := q3 / 10;
    var q1 := q2 / 36;
    [BlankOr(q1 % 37, 0), Alnum(q2 % 36), Alnum(q3 % 10),
     BlankOr(q4 % 27, 10), BlankOr(q5 % 27, 10), BlankOr(m % 27, 10)]
  }

  function TrimRight(s: string): (t: string)
    ensures |t| <= |s| && t == s[..|t|]
    ensures t != [] ==> t[|t| - 1] != ' '
    ensures forall i :: |t| <= i < |s| ==> s[i] == ' '
  {
    if s != [] && s[|s| - 1] == ' ' then TrimRight(s[..|s| - 1]) else s
  }

  /** The callsign written in six aligned characters. */
  function Unaligned(p: string): (u: string)
    requires |p| == 6
    ensures |u| <= 6
  {
    TrimRight(if p[0] == ' ' then p[1..] else p)
  }

  function DecodeC28(n: nat): (r: Option<C28>) {
    if n == 0 then Some(De)
    else if n == 1 then Some(Qrz)
    else if n == 2 then Some(Cq)
    else if n < 1003 then
      var d := n - 3;
      Some(CqMod([Alnum(d / 100), Alnum(d / 10 % 10), Alnum(d % 10)]))
    else if n < 1003 + 531441 then DecodeModifier(n - 1003)
    else if FIRST_HASH <= n < FIRST_CALLSIGN then Some(Hash22(n - FIRST_HASH))
    else if FIRST_CALLSIGN <= n < 0x1000_0000 then Some(Callsign(Unaligned(AlignedCall(n - FIRST_CALLSIGN))))
    else None
  }

  /** Base-27 digits 1..26, one to four of them, none of them zero. */
  function DecodeModifier(v: nat): Option<C28> {
    var q1 := v / 27;
    var q2 := q1 / 27;
    var d3, d2, d1, d0 := q2 / 27 % 27, q2 % 27, q1 % 27, v % 27;
    if d3 > 0 && d2 > 0 && d1 > 0 && d0 > 0 then Some(CqMod([Cap(d3), Cap(d2), Cap(d1), Cap(d0)]))
    else if d3 == 0 && d2 > 0 && d1 > 0 && d0 > 0 then Some(CqMod([Cap(d2), Cap(d1), Cap(d0)]))
    else if d3 == 0 && d2 == 0 && d1 > 0 && d0 > 0 then Some(CqMod([Cap(d1), Cap(d0)]))
    else if d3 == 0 && d2 == 0 && d1 == 0 && d0 > 0 then Some(CqMod([Cap(d0)]))
    else None
  }

  function Cap(d: nat): (c: char)
    requires 1 <= d <= 26
    ensures IsUpper(c)
  {
    (('A' as int) + d - 1) as char
  }

  // Exactly which tokens survive.

  predicate Shape6(p: string) {
    |p| == 6 &&
    (IsUpper(p[0]) || IsDigit(p[0]) || p[0] == ' ') && (IsUpper(p[1]) || IsDigit(p[1])) && IsDigit(p[2]) &&
    (IsUpper(p[3]) || p[3] == ' ') && (IsUpper(p[4]) || p[4] == ' ') && (IsUpper(p[5]) || p[5] == ' ')
  }

  /** A standard callsign: its digit is second or third, it fits after alignment, and it has the shape. */
  predicate StandardCall(u: string) {
    |u| <= 6 && DigitIndex(u) >= 1 && |u| + 2 - DigitIndex(u) <= 6 &&
    u[0] != ' ' && u[|u| - 1] != ' ' && Shape6(Aligned(u))
  }

  predicate Canonical(t: C28) {
    match t
    case CqMod(m) => (|m| == 3 && AllDigits(m)) || (1 <= |m| <= 4 && AllLetters(Upper(m)))
    case Hash22(h) => h < 0x40_0000
    case Callsign(c) => StandardCall(Upper(c))
    case _ => true
  }

  function Normal(t: C28): C28 {
    match t
    case CqMod(m) => CqMod(Upper(m))
    case Callsign(c) => Callsign(Upper(c))
    case _ => t
  }

  lemma AlignedRoundTrip(p: string)
    requires Shape6(p)
    ensures FIRST_CALLSIGN <= AlignedNumber(p) < 0x1000_0000
    ensures AlignedCall(AlignedNumber(p) - FIRST_CALLSIGN) == p
  {
    var i1, i2, i3 := Index37(p[0]), Index36(p[1]), Index10(p[2]);
    var i4, i5, i6 := Index27(p[3]), Index27(p[4]), Index27(p[5]);
    var n2 := i1 * 36 + i2;
    var n3 := n2 * 10 + i3;
    var n4 := n3 * 27 + i4;
    var n5 := n4 * 27 + i5;
    assert AlignedNumber(p) - FIRST_CALLSIGN == n5 * 27 + i6;
    DivMod(n5, i6, 27);
    DivMod(n4, i5, 27);
    DivMod(n3, i4, 27);
    DivMod(n2, i3, 10);
    DivMod(i1, i2, 36);
    DivMod(0, i1, 37);
    IndexInverse(p);
    assert p == [p[0], p[1], p[2], p[3], p[4], p[5]];
  }

  lemma IndexInverse(p: string)
    requires Shape6(p)
    ensures BlankOr(Index37(p[0]), 0) == p[0] && Alnum(Index36(p[1])) == p[1] && Alnum(Index10(p[2])) == p[2]
    ensures BlankOr(Index27(p[3]), 10) == p[3] && BlankOr(Index27(p[4]), 10) == p[4]
    ensures BlankOr(Index27(p[5]), 10) == p[5]
  {
  }

  lemma AlignedCallShape(m: nat)
    ensures Shape6(AlignedCall(m))
  {
  }

  /** Aligning undoes un-aligning, and what un-aligning produces is a standard callsign. */
  lemma AlignUnaligned(p: string)
    requires Shape6(p)
    ensures StandardCall(Unaligned(p)) && Aligned(Unaligned(p)) == p
  {
    var u := Unaligned(p);
    if p[0] == ' ' {
      assert |u| >= 2 && u == p[1..][..|u|];
      assert u[1] == p[2] && (|u| > 2 ==> u[2] == p[3]);
      assert DigitIndex(u) == 1;
      assert forall i :: |u| <= i < 5 ==> p[i + 1] == p[1..][i] == ' ';
      assert Aligned(u) == p;
    } else {
      assert |u| >= 3 && u == p[..|u|];
      assert DigitIndex(u) == 2;
      assert Aligned(u) == p;
    }
  }

  lemma UnalignAligned(u: string)
    requires StandardCall(u)
    ensures Unaligned(Aligned(u)) == u
  {
    var p := Aligned(u);
    var d := DigitIndex(u);
    if d == 1 {
      assert p[0] == ' ';
      assert p[1..] == u + Repeat(' ', 5 - |u|);
    } else {
      assert p[0] == u[0];
      assert p == u + Repeat(' ', 6 - |u|);
    }
    var t := if p[0] == ' ' then p[1..] else p;
    var r := TrimRight(t);
    assert t[|u| - 1] == u[|u| - 1];
    assert |r| >= |u|;
    assert forall i :: |u| <= i < |t| ==> t[i] == ' ';
    assert r == t[..|u|] == u;
  }

  /** Digit of weight 27^k of a modifier of at most four characters. */
  function ModifierDigit(u: string, k: nat): (d: nat)
    ensures d < 27
  {
    if k < |u| then ModifierCharValue(u[|u| - 1 - k]) else 0
  }

  lemma {:induction false} ModifierUnrolled(u: string, n: nat)
    requires |u| <= n <= 4
    ensures n == 0 ==> ModifierValue(u) == 0
    ensures n == 1 ==> ModifierValue(u) == ModifierDigit(u, 0)
    ensures n == 2 ==> ModifierValue(u) == ModifierDigit(u, 1) * 27 + ModifierDigit(u, 0)
    ensures n == 3 ==>
      ModifierValue(u) == (ModifierDigit(u, 2) * 27 + ModifierDigit(u, 1)) * 27 + ModifierDigit(u, 0)
    ensures n == 4 ==>
      ModifierValue(u) ==
      ((ModifierDigit(u, 3) * 27 + ModifierDigit(u, 2)) * 27 + ModifierDigit(u, 1)) * 27 + ModifierDigit(u, 0)
    decreases n
  {
    if |u| > 0 {
      var front := u[..|u| - 1];
      ModifierUnrolled(front, n - 1);
      assert forall k :: 0 <= k < |front| ==> ModifierDigit(front, k) == ModifierDigit(u, k + 1);
      assert ModifierDigit(front, 0) == ModifierDigit(u, 1);
      assert ModifierDigit(front, 1) == ModifierDigit(u, 2);
      assert ModifierDigit(front, 2) == ModifierDigit(u, 3);
    }
  }

  lemma DecodeDigits(d3: nat, d2: nat, d1: nat, d0: nat)
    requires d3 < 27 && d2 < 27 && d1 < 27 && d0 < 27
    ensures var v := ((d3 * 27 + d2) * 27 + d1) * 27 + d0;
      v < 531441 && v % 27 == d0 && v / 27 % 27 == d1 && v / 27 / 27 % 27 == d2 && v / 27 / 27 / 27 % 27 == d3
  {
    DivMod((d3 * 27 + d2) * 27 + d1, d0, 27);
    DivMod(d3 * 27 + d2, d1, 27);
    DivMod(d3, d2, 27);
  }

  /** A CQ modifier of letters spells its base-27 value back; any other text does not. */
  lemma ModifierExact(m: string)
    requires 1 <= |m| <= 4
    ensures ModifierValue(Upper(m)) < 531441
    ensures DecodeModifier(ModifierValue(Upper(m))) == Some(CqMod(Upper(m))) <==> AllLetters(Upper(m))
  {
    hide ModifierValue;
    hide ModifierDigit;
    hide DecodeModifier;
    hide Spelled;
    hide Upper;
    hide AllLetters;
    var u := Upper(m);
    ModifierNumber(u);
    var d0, d1, d2, d3 := ModifierDigit(u, 0), ModifierDigit(u, 1), ModifierDigit(u, 2), ModifierDigit(u, 3);
    DigitsBound(d3, d2, d1, d0);
    DecodeModifierDigits(d3, d2, d1, d0);
    if |u| == 1 {
      SpelledOne(u);
    } else if |u| == 2 {
      SpelledTwo(u);
    } else if |u| == 3 {
      SpelledThree(u);
    } else {
      SpelledFour(u);
    }
  }

  /** The modifier that four base-27 digits spell, if they are letters after leading zeros. */
  function Spelled(d3: nat, d2: nat, d1: nat, d0: nat): Option<C28>
    requires d3 < 27 && d2 < 27 && d1 < 27 && d0 < 27
  {
    if d3 > 0 && d2 > 0 && d1 > 0 && d0 > 0 then Some(CqMod([Cap(d3), Cap(d2), Cap(d1), Cap(d0)]))
    else if d3 == 0 && d2 > 0 && d1 > 0 && d0 > 0 then Some(CqMod([Cap(d2), Cap(d1), Cap(d0)]))
    else if d3 == 0 && d2 == 0 && d1 > 0 && d0 > 0 then Some(CqMod([Cap(d1), Cap(d0)]))
    else if d3 == 0 && d2 == 0 && d1 == 0 && d0 > 0 then Some(CqMod([Cap(d0)]))
    else None
  }

  function SpelledOf(u: string): Option<C28> {
    Spelled(ModifierDigit(u, 3), ModifierDigit(u, 2), ModifierDigit(u, 1), ModifierDigit(u, 0))
  }

  lemma SpelledOne(u: string)
    requires |u| == 1
    ensures SpelledOf(u) == Some(CqMod(u)) <==> AllLetters(u)
  {
    assert u == [u[0]];
  }

  lemma SpelledTwo(u: string)
    requires |u| == 2
    ensures SpelledOf(u) == Some(CqMod(u)) <==> AllLetters(u)
  {
    assert u == [u[0], u[1]];
  }

  lemma SpelledThree(u: string)
    requires |u| == 3
    ensures SpelledOf(u) == Some(CqMod(u)) <==> AllLetters(u)
  {
    assert u == [u[0], u[1], u[2]];
  }

  lemma SpelledFour(u: string)
    requires |u| == 4
    ensures SpelledOf(u) == Some(CqMod(u)) <==> AllLetters(u)
  {
    assert u == [u[0], u[1], u[2], u[3]];
  }

  lemma ModifierNumber(u: string)
    requires |u| <= 4
    ensures ModifierValue(u) ==
      ((ModifierDigit(u, 3) * 27 + ModifierDigit(u, 2)) * 27 + ModifierDigit(u, 1)) * 27 + ModifierDigit(u, 0)
  {
    hide ModifierValue;
    hide ModifierDigit;
    ModifierUnrolled(u, 4);
  }

  lemma DigitsBound(d3: nat, d2: nat, d1: nat, d0: nat)
    requires d3 < 27 && d2 < 27 && d1 < 27 && d0 < 27
    ensures ((d3 * 27 + d2) * 27 + d1) * 27 + d0 < 531441
  {
  }

  lemma DecodeModifierDigits(d3: nat, d2: nat, d1: nat, d0: nat)
    requires d3 < 27 && d2 < 27 && d1 < 27 && d0 < 27
    ensures DecodeModifier(((d3 * 27 + d2) * 27 + d1) * 27 + d0) == Spelled(d3, d2, d1, d0)
  {
    DecodeDigits(d3, d2, d1, d0);
  }

  /** The 28-bit token field gives a token back, upper-cased, exactly when the token is canonical. */
  lemma C28Exact(t: C28)
    requires Storable(t)
    ensures DecodeC28(EncodeC28(t)) == Some(Normal(t)) <==> Canonical(t)
    ensures Canonical(t) ==> EncodeC28(t) < 0x1000_0000
  {
    hide StandardCall;
    hide Aligned;
    hide AlignedNumber;
    hide AlignedCall;
    hide DecodeModifier;
    match t {
      case De =>
      case Qrz =>
      case Cq =>
      case CqMod(m) =>
        if |m| == 3 && AllDigits(m) {
          DigitsExact(m);
        } else if |m| > 0 {
          ModifierExact(m);
        }
      case Hash22(h) => HashExact(h);
      case Callsign(c) => CallsignExact(c);
    }
  }

  lemma TokenNumberRange(t: C28)
    requires Storable(t) && !t.Hash22?
    ensures EncodeC28(t) < 0x1000_0000
  {
    match t {
      case CqMod(m) =>
        if |m| > 0 && !(|m| == 3 && AllDigits(m)) {
          ModifierExact(m);
        }
      case _ =>
    }
  }

  /** The same holds for the low 28 bits, which are all that the payload stores. */
  lemma C28FieldExact(t: C28)
    requires Storable(t)
    ensures DecodeC28(EncodeC28(t) % 0x1000_0000) == Some(Normal(t)) <==> Canonical(t)
  {
    hide EncodeC28;
    hide DecodeC28;
    hide Canonical;
    if t.Hash22? {
      HashFieldExact(t);
    } else {
      C28Exact(t);
      TokenNumberRange(t);
    }
  }

  lemma HashFieldExact(t: C28)
    requires Storable(t) && t.Hash22?
    ensures DecodeC28(EncodeC28(t) % 0x1000_0000) == Some(Normal(t)) <==> Canonical(t)
  {
    hide DecodeModifier;
    hide Unaligned;
    hide AlignedCall;
    HashExact(t.hash);
    var m := EncodeC28(t) % 0x1000_0000;
    if t.hash < 0x40_0000 {
      assert m == FIRST_HASH + t.hash;
    } else {
      DecodedHashBound(m);
    }
  }

  lemma DecodedHashBound(n: nat)
    ensures DecodeC28(n).Some? && DecodeC28(n).value.Hash22? ==> DecodeC28(n).value.hash < 0x40_0000
  {
  }

  lemma DigitsExact(m: string)
    requires |m| == 3 && AllDigits(m)
    ensures DecodeC28(EncodeC28(CqMod(m))) == Some(CqMod(Upper(m)))
  {
    DivMod(Digit(m[0]), Digit(m[1]) * 10 + Digit(m[2]), 100);
    DivMod(Digit(m[0]) * 10 + Digit(m[1]), Digit(m[2]), 10);
    DivMod(Digit(m[0]), Digit(m[1]), 10);
    assert Upper(m) == [m[0], m[1], m[2]];
  }

  lemma HashExact(h: nat)
    requires h < TWO_32
    ensures DecodeC28(EncodeC28(Hash22(h))) == Some(Hash22(h)) <==> h < 0x40_0000
    ensures h < 0x40_0000 ==> EncodeC28(Hash22(h)) == FIRST_HASH + h
  {
    assert U32(FIRST_HASH + h) == if FIRST_HASH + h < TWO_32 then FIRST_HASH + h else FIRST_HASH + h - TWO_32;
  }

  lemma AtLeastFirst(p: string)
    requires |p| == 6
    ensures AlignedNumber(p) >= FIRST_CALLSIGN
  {
  }

  lemma CallsignExact(c: string)
    requires |c| <= 6
    ensures DecodeC28(EncodeC28(Callsign(c))) == Some(Callsign(Upper(c))) <==> StandardCall(Upper(c))
    ensures StandardCall(Upper(c)) ==> EncodeC28(Callsign(c)) < 0x1000_0000
  {
    hide Shape6;
    hide Aligned;
    hide AlignedNumber;
    hide AlignedCall;
    hide Unaligned;
    var u := Upper(c);
    var n := EncodeC28(Callsign(c));
    assert n == AlignedNumber(Aligned(u)) >= FIRST_CALLSIGN by {
      AtLeastFirst(Aligned(u));
    }
    if StandardCall(u) {
      AlignedRoundTrip(Aligned(u));
      UnalignAligned(u);
    } else if n < 0x1000_0000 {
      AlignedCallShape(n - FIRST_CALLSIGN);
      AlignUnaligned(AlignedCall(n - FIRST_CALLSIGN));
    }
  }

  /** The token ranges fill the field to its last value. */
  lemma LastToken()
    ensures Canonical(Callsign("ZZ9ZZZ")) && EncodeC28(Callsign("ZZ9ZZZ")) == 0xFFF_FFFF
  {
    var c := "ZZ9ZZZ";
    assert Upper(c) == c && DigitIndex(c) == 2;
    assert Aligned(c) == c;
    hide Aligned;
    hide DigitIndex;
    assert AlignedNumber(c) == 0xFFF_FFFF;
  }

  /** The numbers of the tokens: three fixed ones, a thousand numbered CQs, CQs by letters, hashes, callsigns. */
  lemma C28Numbers(m: string, h: nat)
    requires |m| == 3 && AllDigits(m) && h < 0x40_0000
    ensures EncodeC28(De) == 0 && EncodeC28(Qrz) == 1 && EncodeC28(Cq) == 2 && EncodeC28(CqMod("")) == 2
    ensures EncodeC28(CqMod(m)) ==
            3 + (m[0] as int - 48) * 100 + (m[1] as int - 48) * 10 + (m[2] as int - 48)
    ensures EncodeC28(Hash22(h)) == 2063592 + h
  {
  }

  lemma ModifierMore(u: string, c: char)
    ensures ModifierValue(u + [c]) == ModifierValue(u) * 27 + if 'A' <= c <= 'Z' then (c as int - 64) as nat else 0
  {
    assert (u + [c])[..|u|] == u;
  }

  /** CQ POTA and CQ DX. */
  lemma ModifierExamples()
    ensures EncodeC28(CqMod("DX")) == 1135 && EncodeC28(CqMod("POTA")) == 327407
  {
    hide ModifierValue;
    NoModifier();
    var u: string := "";
    ModifierMore(u, 'D');
    ModifierMore(u + ['D'], 'X');
    assert u + ['D'] + ['X'] == "DX" == Upper("DX");
    ModifierMore(u, 'P');
    ModifierMore(u + ['P'], 'O');
    ModifierMore(u + ['P'] + ['O'], 'T');
    ModifierMore(u + ['P'] + ['O'] + ['T'], 'A');
    assert u + ['P'] + ['O'] + ['T'] + ['A'] == "POTA" == Upper("POTA");
  }

  lemma NoModifier()
    ensures ModifierValue("") == 0
  {
  }

  /** A standard callsign's number by its aligned characters: blanks, digits and letters count from 0, 1 and 11 in
      front, digits and letters from 0 and 10 after that, then a digit, and blanks and letters from 0 and 1. */
  lemma CallsignNumberIs(c: string)
    requires |c| <= 6
    ensures var p := Aligned(Upper(c));
            EncodeC28(Callsign(c)) == 6257896 +
              (if '0' <= p[0] <= '9' then p[0] as int - 47 else if 'A' <= p[0] <= 'Z' then p[0] as int - 54 else 0)
                * 7085880 +
              (if '0' <= p[1] <= '9' then p[1] as int - 48 else if 'A' <= p[1] <= 'Z' then p[1] as int - 55 else 0)
                * 196830 +
              (if '0' <= p[2] <= '9' then p[2] as int - 48 else 0) * 19683 +
              (if 'A' <= p[3] <= 'Z' then p[3] as int - 64 else 0) * 729 +
              (if 'A' <= p[4] <= 'Z' then p[4] as int - 64 else 0) * 27 +
              (if 'A' <= p[5] <= 'Z' then p[5] as int - 64 else 0)
  {
    hide Aligned;
  }

  /** The worked example K1ABC, aligned on its digit. */
  lemma CallsignExample()
    ensures EncodeC28(Callsign("K1ABC")) == 10214965
  {
    assert Upper("K1ABC") == "K1ABC";
    assert Aligned("K1ABC") == " K1ABC";
    CallsignNumberIs("K1ABC");
  }

  // ------------------------------------------------------------- g15, g25

  datatype G15 = Grid(grid: string) | Report(report: int) | Rrr | Rr73 | SeventyThree | NoGrid

  const MAX_GRID4: nat := 32400

  predicate StorableG15(g: G15) {
    match g
    case Grid(s) => |s| <= 4
    case Report(r) => -128 <= r <= 127
    case _ => true
  }

  /** A stored grid or report. */
  type StoredG15 = g: G15 | StorableG15(g) witness Rrr

  /** Letters A..Z and digits pass the firmware's test; anything else, or a short text, gives 0. */
  function EncodeG15(g: G15): (n: nat)
    requires StorableG15(g)
    ensures n < 0x8000
  {
    match g
    case Grid(s) =>
      if |s| < 4 || !IsUpper(s[0]) || !IsUpper(s[1]) || !IsDigit(s[2]) || !IsDigit(s[3]) then 0
      else ((Letter(s[0]) * 1800 + Letter(s[1]) * 100 + Digit(s[2]) * 10 + Digit(s[3])) % 0x8000) as nat
    case NoGrid => MAX_GRID4 + 1
    case Rrr => MAX_GRID4 + 2
    case Rr73 => MAX_GRID4 + 3
    case SeventyThree => MAX_GRID4 + 4
    case Report(r) => MAX_GRID4 + r + 35
  }

  function GridLetter(v: nat): char
    requires v < 26
  {
    (('A' as int) + v) as char
  }

  function DecodeG15(n: nat): (r: Option<G15>)
    requires n < 0x8000
  {
    if n < MAX_GRID4 then
      var q := n / 10;
      Some(Grid([GridLetter(q / 10 / 18), GridLetter(q / 10 % 18), Alnum(q % 10), Alnum(n % 10)]))
    else if n == MAX_GRID4 then None
    else if n == MAX_GRID4 + 1 then Some(NoGrid)
    else if n == MAX_GRID4 + 2 then Some(Rrr)
    else if n == MAX_GRID4 + 3 then Some(Rr73)
    else if n == MAX_GRID4 + 4 then Some(SeventyThree)
    else Some(Report(n - MAX_GRID4 - 35))
  }

  predicate CanonicalG15(g: G15) {
    match g
    case Grid(s) =>
      |s| == 4 && 'A' <= s[0] <= 'R' && 'A' <= s[1] <= 'R' && IsDigit(s[2]) && IsDigit(s[3])
    case Report(r) => r >= -30
    case _ => true
  }

  /** Grids survive exactly with letters A..R, reports exactly from -30 up. */
  lemma G15Exact(g: G15)
    requires StorableG15(g)
    ensures DecodeG15(EncodeG15(g)) == Some(g) <==> CanonicalG15(g)
  {
    match g {
      case Grid(s) => GridExact(s);
      case _ =>
    }
  }

  lemma GridCharacters(s: string)
    requires CanonicalG15(Grid(s))
    ensures s == [GridLetter(Letter(s[0])), GridLetter(Letter(s[1])), Alnum(Digit(s[2])), Alnum(Digit(s[3]))]
  {
  }

  lemma GridKept(s: string)
    requires CanonicalG15(Grid(s))
    ensures DecodeG15(EncodeG15(Grid(s))) == Some(Grid(s))
  {
    hide DecodeG15;
    hide GridLetter;
    hide Alnum;
    GridNumber(s);
    hide EncodeG15;
    GridDigits(Letter(s[0]), Letter(s[1]), Digit(s[2]), Digit(s[3]));
    GridCharacters(s);
  }

  lemma GridNumber(s: string)
    requires CanonicalG15(Grid(s))
    ensures EncodeG15(Grid(s)) == Letter(s[0]) * 1800 + Letter(s[1]) * 100 + Digit(s[2]) * 10 + Digit(s[3])
  {
  }

  lemma GridExact(s: string)
    requires |s| <= 4
    ensures DecodeG15(EncodeG15(Grid(s))) == Some(Grid(s)) <==> CanonicalG15(Grid(s))
  {
    hide EncodeG15;
    hide DecodeG15;
    hide CanonicalG15;
    var n := EncodeG15(Grid(s));
    if CanonicalG15(Grid(s)) {
      GridKept(s);
    } else {
      DecodedGridCanonical(n);
    }
  }

  lemma GridDigits(a: nat, b: nat, c: nat, d: nat)
    requires a < 18 && b < 18 && c < 10 && d < 10
    ensures var n := a * 1800 + b * 100 + c * 10 + d;
            n < MAX_GRID4 &&
            DecodeG15(n) == Some(Grid([GridLetter(a), GridLetter(b), Alnum(c), Alnum(d)]))
  {
    DivMod((a * 18 + b) * 10 + c, d, 10);
    DivMod(a * 18 + b, c, 10);
    DivMod(a, b, 18);
  }

  lemma DecodedGridCanonical(n: nat)
    requires n < 0x8000
    ensures DecodeG15(n).Some? ==> CanonicalG15(DecodeG15(n).value)
  {
  }

  /** The numbers of the 15-bit field. */
  lemma G15Numbers(s: string, r: int)
    requires |s| <= 4 && -128 <= r <= 127
    ensures EncodeG15(NoGrid) == 32401 && EncodeG15(Rrr) == 32402 && EncodeG15(Rr73) == 32403
    ensures EncodeG15(SeventyThree) == 32404 && EncodeG15(Report(r)) == 32435 + r
    ensures var letters := |s| == 4 && 'A' <= s[0] <= 'Z' && 'A' <= s[1] <= 'Z' && '0' <= s[2] <= '9' &&
                           '0' <= s[3] <= '9';
            EncodeG15(Grid(s)) ==
            if letters then
              ((s[0] as int - 65) * 1800 + (s[1] as int - 65) * 100 + (s[2] as int - 48) * 10 + (s[3] as int - 48))
                % 0x8000
            else 0
  {
  }

  predicate ValidG25(grid: string) {
    |grid| == 6 && 'A' <= grid[0] <= 'R' && 'A' <= grid[1] <= 'R' && IsDigit(grid[2]) && IsDigit(grid[3]) &&
    'A' <= grid[4] <= 'X' && 'A' <= grid[5] <= 'X'
  }

  function EncodeG25(grid: string): nat {
    if !ValidG25(grid) then 0 else
      (Letter(grid[0]) * 1036800 + Letter(grid[1]) * 57600 + Digit(grid[2]) * 5760 + Digit(grid[3]) * 576 +
       Letter(grid[4]) * 24 + Letter(grid[5])) as nat
  }

  function DecodeG25(n: nat): (s: string)
    ensures ValidG25(s)
  {
    var q5 := n / 24;
    var q4 := q5 / 24;
    var q3 := q4 / 10;
    var q2 := q3 / 10;
    [GridLetter(q2 / 18 % 18), GridLetter(q2 % 18), Alnum(q3 % 10), Alnum(q4 % 10),
     GridLetter(q5 % 24), GridLetter(n % 24)]
  }

  lemma G25Exact(grid: string)
    ensures EncodeG25(grid) < 0x200_0000
    ensures DecodeG25(EncodeG25(grid)) == grid <==> ValidG25(grid)
  {
    if ValidG25(grid) {
      var a, b, c, d := Letter(grid[0]), Letter(grid[1]), Digit(grid[2]), Digit(grid[3]);
      var e, f := Letter(grid[4]), Letter(grid[5]);
      var n2 := a * 18 + b;
      var n3 := n2 * 10 + c;
      var n4 := n3 * 10 + d;
      DivMod(n4 * 24 + e, f, 24);
      DivMod(n4, e, 24);
      DivMod(n3, d, 10);
      DivMod(n2, c, 10);
      DivMod(a, b, 18);
      assert EncodeG25(grid) == (n4 * 24 + e) * 24 + f;
      assert grid == [grid[0], grid[1], grid[2], grid[3], grid[4], grid[5]];
    }
  }

  /** The number of a six-character grid: letters, digits and letters in mixed radix; 0 for anything else. */
  lemma G25Number(g: string)
    ensures var valid := |g| == 6 && 'A' <= g[0] <= 'R' && 'A' <= g[1] <= 'R' && '0' <= g[2] <= '9' &&
                         '0' <= g[3] <= '9' && 'A' <= g[4] <= 'X' && 'A' <= g[5] <= 'X';
            EncodeG25(g) ==
            if valid then
              (((((g[0] as int - 65) * 18 + (g[1] as int - 65)) * 10 + (g[2] as int - 48)) * 10 + (g[3] as int - 48))
                * 24 + (g[4] as int - 65)) * 24 + (g[5] as int - 65)
            else 0
  {
  }

  // --------------------------------------------------- sections and states

  // The abbreviation tables in rows of five entries, each filled up to four characters.

  function SectionRow(row: nat): (text: string)
    ensures |text| == 20
  {
    match row
    case 0 => "AB  AK  AL  AR  AZ  "
    case 1 => "BC  CO  CT  DE  EB  "
    case 2 => "EMA ENY EPA EWA GA  "
    case 3 => "GTA IA  ID  IL  IN  "
    case 4 => "KS  KY  LA  LAX MAR "
    case 5 => "MB  MDC ME  MI  MN  "
    case 6 => "MO  MS  MT  NC  ND  "
    case 7 => "NE  NFL NH  NL  NLI "
    case 8 => "NM  NNJ NNY NT  NTX "
    case 9 => "NV  OH  OK  ONE ONN "
    case 10 => "ONS OR  ORG PAC PR  "
    case 11 => "QC  RI  SB  SC  SCV "
    case 12 => "SD  SDG SF  SFL SJV "
    case 13 => "SK  SNJ STX SV  TN  "
    case 14 => "UT  VA  VI  VT  WCF "
    case 15 => "WI  WMA WNY WPA WTX "
    case _ => "WV  WWA WY  DX      "
  }

  function StateRow(row: nat): (text: string)
    ensures |text| == 20
  {
    match row
    case 0 => "AL  AK  AZ  AR  CA  "
    case 1 => "CO  CT  DE  FL  GA  "
    case 2 => "HI  ID  IL  IN  IA  "
    case 3 => "KS  KY  LA  ME  MD  "
    case 4 => "MA  MI  MN  MS  MO  "
    case 5 => "MT  NE  NV  NH  NJ  "
    case 6 => "NM  NY  NC  ND  OH  "
    case 7 => "OK  OR  PA  RI  SC  "
    case 8 => "SD  TN  TX  UT  VT  "
    case 9 => "VA  WA  WV  WI  WY  "
    case 10 => "NB  NS  QC  ON  MB  "
    case 11 => "SK  AB  BC  NWT NF  "
    case _ => "LB  NU  YT  PEI DC  "
  }

  function Entry(row: string, k: nat): (entry: string)
    requires 4 * k + 4 <= |row|
    ensures |entry| <= 3
  {
    TrimRight(row[4 * k..4 * k + 3])
  }

  function SectionTable(): (table: seq<string>)
    ensures |table| == 84
    ensures forall i :: 0 <= i < 84 ==> |table[i]| <= 3
  {
    seq(84, i requires 0 <= i < 84 => Entry(SectionRow(i / 5), i % 5))
  }

  const SECTIONS: seq<string> := SectionTable()

  function StateTable(): (table: seq<string>)
    ensures |table| == 65
    ensures forall i :: 0 <= i < 65 ==> |table[i]| <= 3
  {
    seq(65, i requires 0 <= i < 65 => Entry(StateRow(i / 5), i % 5))
  }

  const STATES: seq<string> := StateTable()

  lemma EntryIs(row: string, k: nat, a: char, b: char, c: char)
    requires 4 * k + 4 <= |row| && row[4 * k] == a && row[4 * k + 1] == b && row[4 * k + 2] == c && a != ' '
    ensures Entry(row, k) == if c != ' ' then [a, b, c] else if b != ' ' then [a, b] else [a]
  {
    var text := row[4 * k..4 * k + 3];
    if c != ' ' {
      assert text == [a, b, c] + Repeat(' ', 0);
      TrimmedIs([a, b, c], 0);
    } else if b != ' ' {
      assert text == [a, b] + Repeat(' ', 1);
      TrimmedIs([a, b], 1);
    } else {
      assert text == [a] + Repeat(' ', 2);
      TrimmedIs([a], 2);
    }
  }

  lemma {:induction false} TrimmedIs(s: string, n: nat)
    requires s != [] && s[|s| - 1] != ' '
    ensures TrimRight(s + Repeat(' ', n)) == s
  {
    var t := s + Repeat(' ', n);
    if n == 0 {
      assert t == s;
    } else {
      assert t[..|t| - 1] == s + Repeat(' ', n - 1);
      TrimmedIs(s, n - 1);
    }
  }

  lemma SectionAt(i: nat)
    requires i < 84
    ensures |SECTIONS| == 84 && SECTIONS[i] == Entry(SectionRow(i / 5), i % 5)
  {
    hide SectionRow;
    hide Entry;
  }

  lemma Sections0()
    ensures SECTIONS[0..5] == ["AB", "AK", "AL", "AR", "AZ"]
  {
    hide SECTIONS;
    hide Entry;
    var row := SectionRow(0);
    EntryIs(row, 0, 'A', 'B', ' ');
    EntryIs(row, 1, 'A', 'K', ' ');
    EntryIs(row, 2, 'A', 'L', ' ');
    EntryIs(row, 3, 'A', 'R', ' ');
    EntryIs(row, 4, 'A', 'Z', ' ');
    SectionAt(0);
    SectionAt(1);
    SectionAt(2);
    SectionAt(3);
    SectionAt(4);
  }

  lemma Sections1()
    ensures SECTIONS[5..10] == ["BC", "CO", "CT", "DE", "EB"]
  {
    hide SECTIONS;
    hide Entry;
    var row := SectionRow(1);
    EntryIs(row, 0, 'B', 'C', ' ');
    EntryIs(row, 1, 'C', 'O', ' ');
    EntryIs(row, 2, 'C', 'T', ' ');
    EntryIs(row, 3, 'D', 'E', ' ');
    EntryIs(row, 4, 'E', 'B', ' ');
    SectionAt(5);
    SectionAt(6);
    SectionAt(7);
    SectionAt(8);
    SectionAt(9);
  }

  lemma Sections2()
    ensures SECTIONS[10..15] == ["EMA", "ENY", "EPA", "EWA", "GA"]
  {
    hide SECTIONS;
    hide Entry;
    var row := SectionRow(2);
    EntryIs(row, 0, 'E', 'M', 'A');
    EntryIs(row, 1, 'E', 'N', 'Y');
    EntryIs(row, 2, 'E', 'P', 'A');
    EntryIs(row, 3, 'E', 'W', 'A');
    EntryIs(row, 4, 'G', 'A', ' ');
    SectionAt(10);
    SectionAt(11);
    SectionAt(12);
    SectionAt(13);
    SectionAt(14);
  }

  lemma Sections3()
    ensures SECTIONS[15..20] == ["GTA", "IA", "ID", "IL", "IN"]
  {
    hide SECTIONS;
    hide Entry;
    var row := SectionRow(3);
    EntryIs(row, 0, 'G', 'T', 'A');
    EntryIs(row, 1, 'I', 'A', ' ');
    EntryIs(row, 2, 'I', 'D', ' ');
    EntryIs(row, 3, 'I', 'L', ' ');
    EntryIs(row, 4, 'I', 'N', ' ');
    SectionAt(15);
    SectionAt(16);
    SectionAt(17);
    SectionAt(18);
    SectionAt(19);
  }

  lemma Sections4()
    ensures SECTIONS[20..25] == ["KS", "KY", "LA", "LAX", "MAR"]
  {
    hide SECTIONS;
    hide Entry;
    var row := SectionRow(4);
    EntryIs(row, 0, 'K', 'S', ' ');
    EntryIs(row, 1, 'K', 'Y', ' ');
    EntryIs(row, 2, 'L', 'A', ' ');
    EntryIs(row, 3, 'L', 'A', 'X');
    EntryIs(row, 4, 'M', 'A', 'R');
    SectionAt(20);
    SectionAt(21);
    SectionAt(22);
    SectionAt(23);
    SectionAt(24);
  }

  lemma Sections5()
    ensures SECTIONS[25..30] == ["MB", "MDC", "ME", "MI", "MN"]
  {
    hide SECTIONS;
    hide Entry;
    var row := SectionRow(5);
    EntryIs(row, 0, 'M', 'B', ' ');
    EntryIs(row, 1, 'M', 'D', 'C');
    EntryIs(row, 2, 'M', 'E', ' ');
    EntryIs(row, 3, 'M', 'I', ' ');
    EntryIs(row, 4, 'M', 'N', ' ');
    SectionAt(25);
    SectionAt(26);
    SectionAt(27);
    SectionAt(28);
    SectionAt(29);
  }

  lemma Sections6()
    ensures SECTIONS[30..35] == ["MO", "MS", "MT", "NC", "ND"]
  {
    hide SECTIONS;
    hide Entry;
    var row := SectionRow(6);
    EntryIs(row, 0, 'M', 'O', ' ');
    EntryIs(row, 1, 'M', 'S', ' ');
    EntryIs(row, 2, 'M', 'T', ' ');
    EntryIs(row, 3, 'N', 'C', ' ');
    EntryIs(row, 4, 'N', 'D', ' ');
    SectionAt(30);
    SectionAt(31);
    SectionAt(32);
    SectionAt(33);
    SectionAt(34);
  }

  lemma Sections7()
    ensures SECTIONS[35..40] == ["NE", "NFL", "NH", "NL", "NLI"]
  {
    hide SECTIONS;
    hide Entry;
    var row := SectionRow(7);
    EntryIs(row, 0, 'N', 'E', ' ');
    EntryIs(row, 1, 'N', 'F', 'L');
    EntryIs(row, 2, 'N', 'H', ' ');
    EntryIs(row, 3, 'N', 'L', ' ');
    EntryIs(row, 4, 'N', 'L', 'I');
    SectionAt(35);
    SectionAt(36);
    SectionAt(37);
    SectionAt(38);
    SectionAt(39);
  }

  lemma Sections8()
    ensures SECTIONS[40..45] == ["NM", "NNJ", "NNY", "NT", "NTX"]
  {
    hide SECTIONS;
    hide Entry;
    var row := SectionRow(8);
    EntryIs(row, 0, 'N', 'M', ' ');
    EntryIs(row, 1, 'N', 'N', 'J');
    EntryIs(row, 2, 'N', 'N', 'Y');
    EntryIs(row, 3, 'N', 'T', ' ');
    EntryIs(row, 4, 'N', 'T', 'X');
    SectionAt(40);
    SectionAt(41);
    SectionAt(42);
    SectionAt(43);
    SectionAt(44);
  }

  lemma Sections9()
    ensures SECTIONS[45..50] == ["NV", "OH", "OK", "ONE", "ONN"]
  {
    hide SECTIONS;
    hide Entry;
    var row := SectionRow(9);
    EntryIs(row, 0, 'N', 'V', ' ');
    EntryIs(row, 1, 'O', 'H', ' ');
    EntryIs(row, 2, 'O', 'K', ' ');
    EntryIs(row, 3, 'O', 'N', 'E');
    EntryIs(row, 4, 'O', 'N', 'N');
    SectionAt(45);
    SectionAt(46);
    SectionAt(47);
    SectionAt(48);
    SectionAt(49);
  }

  lemma Sections10()
    ensures SECTIONS[50..55] == ["ONS", "OR", "ORG", "PAC", "PR"]
  {
    hide SECTIONS;
    hide Entry;
    var row := SectionRow(10);
    EntryIs(row, 0, 'O', 'N', 'S');
    EntryIs(row, 1, 'O', 'R', ' ');
    EntryIs(row, 2, 'O', 'R', 'G');
    EntryIs(row, 3, 'P', 'A', 'C');
    EntryIs(row, 4, 'P', 'R', ' ');
    SectionAt(50);
    SectionAt(51);
    SectionAt(52);
    SectionAt(53);
    SectionAt(54);
  }

  lemma Sections11()
    ensures SECTIONS[55..60] == ["QC", "RI", "SB", "SC", "SCV"]
  {
    hide SECTIONS;
    hide Entry;
    var row := SectionRow(11);
    EntryIs(row, 0, 'Q', 'C', ' ');
    EntryIs(row, 1, 'R', 'I', ' ');
    EntryIs(row, 2, 'S', 'B', ' ');
    EntryIs(row, 3, 'S', 'C', ' ');
    EntryIs(row, 4, 'S', 'C', 'V');
    SectionAt(55);
    SectionAt(56);
    SectionAt(57);
    SectionAt(58);
    SectionAt(59);
  }

  lemma Sections12()
    ensures SECTIONS[60..65] == ["SD", "SDG", "SF", "SFL", "SJV"]
  {
    hide SECTIONS;
    hide Entry;
    var row := SectionRow(12);
    EntryIs(row, 0, 'S', 'D', ' ');
    EntryIs(row, 1, 'S', 'D', 'G');
    EntryIs(row, 2, 'S', 'F', ' ');
    EntryIs(row, 3, 'S', 'F', 'L');
    EntryIs(row, 4, 'S', 'J', 'V');
    SectionAt(60);
    SectionAt(61);
    SectionAt(62);
    SectionAt(63);
    SectionAt(64);
  }

  lemma Sections13()
    ensures SECTIONS[65..70] == ["SK", "SNJ", "STX", "SV", "TN"]
  {
    hide SECTIONS;
    hide Entry;
    var row := SectionRow(13);
    EntryIs(row, 0, 'S', 'K', ' ');
    EntryIs(row, 1, 'S', 'N', 'J');
    EntryIs(row, 2, 'S', 'T', 'X');
    EntryIs(row, 3, 'S', 'V', ' ');
    EntryIs(row, 4, 'T', 'N', ' ');
    SectionAt(65);
    SectionAt(66);
    SectionAt(67);
    SectionAt(68);
    SectionAt(69);
  }

  lemma Sections14()
    ensures SECTIONS[70..75] == ["UT", "VA", "VI", "VT", "WCF"]
  {
    hide SECTIONS;
    hide Entry;
    var row := SectionRow(14);
    EntryIs(row, 0, 'U', 'T', ' ');
    EntryIs(row, 1, 'V', 'A', ' ');
    EntryIs(row, 2, 'V', 'I', ' ');
    EntryIs(row, 3, 'V', 'T', ' ');
    EntryIs(row, 4, 'W', 'C', 'F');
    SectionAt(70);
    SectionAt(71);
    SectionAt(72);
    SectionAt(73);
    SectionAt(74);
  }

  lemma Sections15()
    ensures SECTIONS[75..80] == ["WI", "WMA", "WNY", "WPA", "WTX"]
  {
    hide SECTIONS;
    hide Entry;
    var row := SectionRow(15);
    EntryIs(row, 0, 'W', 'I', ' ');
    EntryIs(row, 1, 'W', 'M', 'A');
    EntryIs(row, 2, 'W', 'N', 'Y');
    EntryIs(row, 3, 'W', 'P', 'A');
    EntryIs(row, 4, 'W', 'T', 'X');
    SectionAt(75);
    SectionAt(76);
    SectionAt(77);
    SectionAt(78);
    SectionAt(79);
  }

  lemma Sections16()
    ensures SECTIONS[80..84] == ["WV", "WWA", "WY", "DX"]
  {
    hide SECTIONS;
    hide Entry;
    var row := SectionRow(16);
    EntryIs(row, 0, 'W', 'V', ' ');
    EntryIs(row, 1, 'W', 'W', 'A');
    EntryIs(row, 2, 'W', 'Y', ' ');
    EntryIs(row, 3, 'D', 'X', ' ');
    SectionAt(80);
    SectionAt(81);
    SectionAt(82);
    SectionAt(83);
  }

  lemma StateAt(i: nat)
    requires i < 65
    ensures |STATES| == 65 && STATES[i] == Entry(StateRow(i / 5), i % 5)
  {
    hide StateRow;
    hide Entry;
  }

  lemma States0()
    ensures STATES[0..5] == ["AL", "AK", "AZ", "AR", "CA"]
  {
    hide STATES;
    hide Entry;
    var row := StateRow(0);
    EntryIs(row, 0, 'A', 'L', ' ');
    EntryIs(row, 1, 'A', 'K', ' ');
    EntryIs(row, 2, 'A', 'Z', ' ');
    EntryIs(row, 3, 'A', 'R', ' ');
    EntryIs(row, 4, 'C', 'A', ' ');
    StateAt(0);
    StateAt(1);
    StateAt(2);
    StateAt(3);
    StateAt(4);
  }

  lemma States1()
    ensures STATES[5..10] == ["CO", "CT", "DE", "FL", "GA"]
  {
    hide STATES;
    hide Entry;
    var row := StateRow(1);
    EntryIs(row, 0, 'C', 'O', ' ');
    EntryIs(row, 1, 'C', 'T', ' ');
    EntryIs(row, 2, 'D', 'E', ' ');
    EntryIs(row, 3, 'F', 'L', ' ');
    EntryIs(row, 4, 'G', 'A', ' ');
    StateAt(5);
    StateAt(6);
    StateAt(7);
    StateAt(8);
    StateAt(9);
  }

  lemma States2()
    ensures STATES[10..15] == ["HI", "ID", "IL", "IN", "IA"]
  {
    hide STATES;
    hide Entry;
    var row := StateRow(2);
    EntryIs(row, 0, 'H', 'I', ' ');
    EntryIs(row, 1, 'I', 'D', ' ');
    EntryIs(row, 2, 'I', 'L', ' ');
    EntryIs(row, 3, 'I', 'N', ' ');
    EntryIs(row, 4, 'I', 'A', ' ');
    StateAt(10);
    StateAt(11);
    StateAt(12);
    StateAt(13);
    StateAt(14);
  }

  lemma States3()
    ensures STATES[15..20] == ["KS", "KY", "LA", "ME", "MD"]
  {
    hide STATES;
    hide Entry;
    var row := StateRow(3);
    EntryIs(row, 0, 'K', 'S', ' ');
    EntryIs(row, 1, 'K', 'Y', ' ');
    EntryIs(row, 2, 'L', 'A', ' ');
    EntryIs(row, 3, 'M', 'E', ' ');
    EntryIs(row, 4, 'M', 'D', ' ');
    StateAt(15);
    StateAt(16);
    StateAt(17);
    StateAt(18);
    StateAt(19);
  }

  lemma States4()
    ensures STATES[20..25] == ["MA", "MI", "MN", "MS", "MO"]
  {
    hide STATES;
    hide Entry;
    var row := StateRow(4);
    EntryIs(row, 0, 'M', 'A', ' ');
    EntryIs(row, 1, 'M', 'I', ' ');
    EntryIs(row, 2, 'M', 'N', ' ');
    EntryIs(row, 3, 'M', 'S', ' ');
    EntryIs(row, 4, 'M', 'O', ' ');
    StateAt(20);
    StateAt(21);
    StateAt(22);
    StateAt(23);
    StateAt(24);
  }

  lemma States5()
    ensures STATES[25..30] == ["MT", "NE", "NV", "NH", "NJ"]
  {
    hide STATES;
    hide Entry;
    var row := StateRow(5);
    EntryIs(row, 0, 'M', 'T', ' ');
    EntryIs(row, 1, 'N', 'E', ' ');
    EntryIs(row, 2, 'N', 'V', ' ');
    EntryIs(row, 3, 'N', 'H', ' ');
    EntryIs(row, 4, 'N', 'J', ' ');
    StateAt(25);
    StateAt(26);
    StateAt(27);
    StateAt(28);
    StateAt(29);
  }

  lemma States6()
    ensures STATES[30..35] == ["NM", "NY", "NC", "ND", "OH"]
  {
    hide STATES;
    hide Entry;
    var row := StateRow(6);
    EntryIs(row, 0, 'N', 'M', ' ');
    EntryIs(row, 1, 'N', 'Y', ' ');
    EntryIs(row, 2, 'N', 'C', ' ');
    EntryIs(row, 3, 'N', 'D', ' ');
    EntryIs(row, 4, 'O', 'H', ' ');
    StateAt(30);
    StateAt(31);
    StateAt(32);
    StateAt(33);
    StateAt(34);
  }

  lemma States7()
    ensures STATES[35..40] == ["OK", "OR", "PA", "RI", "SC"]
  {
    hide STATES;
    hide Entry;
    var row := StateRow(7);
    EntryIs(row, 0, 'O', 'K', ' ');
    EntryIs(row, 1, 'O', 'R', ' ');
    EntryIs(row, 2, 'P', 'A', ' ');
    EntryIs(row, 3, 'R', 'I', ' ');
    EntryIs(row, 4, 'S', 'C', ' ');
    StateAt(35);
    StateAt(36);
    StateAt(37);
    StateAt(38);
    StateAt(39);
  }

  lemma States8()
    ensures STATES[40..45] == ["SD", "TN", "TX", "UT", "VT"]
  {
    hide STATES;
    hide Entry;
    var row := StateRow(8);
    EntryIs(row, 0, 'S', 'D', ' ');
    EntryIs(row, 1, 'T', 'N', ' ');
    EntryIs(row, 2, 'T', 'X', ' ');
    EntryIs(row, 3, 'U', 'T', ' ');
    EntryIs(row, 4, 'V', 'T', ' ');
    StateAt(40);
    StateAt(41);
    StateAt(42);
    StateAt(43);
    StateAt(44);
  }

  lemma States9()
    ensures STATES[45..50] == ["VA", "WA", "WV", "WI", "WY"]
  {
    hide STATES;
    hide Entry;
    var row := StateRow(9);
    EntryIs(row, 0, 'V', 'A', ' ');
    EntryIs(row, 1, 'W', 'A', ' ');
    EntryIs(row, 2, 'W', 'V', ' ');
    EntryIs(row, 3, 'W', 'I', ' ');
    EntryIs(row, 4, 'W', 'Y', ' ');
    StateAt(45);
    StateAt(46);
    StateAt(47);
    StateAt(48);
    StateAt(49);
  }

  lemma States10()
    ensures STATES[50..55] == ["NB", "NS", "QC", "ON", "MB"]
  {
    hide STATES;
    hide Entry;
    var row := StateRow(10);
    EntryIs(row, 0, 'N', 'B', ' ');
    EntryIs(row, 1, 'N', 'S', ' ');
    EntryIs(row, 2, 'Q', 'C', ' ');
    EntryIs(row, 3, 'O', 'N', ' ');
    EntryIs(row, 4, 'M', 'B', ' ');
    StateAt(50);
    StateAt(51);
    StateAt(52);
    StateAt(53);
    StateAt(54);
  }

  lemma States11()
    ensures STATES[55..60] == ["SK", "AB", "BC", "NWT", "NF"]
  {
    hide STATES;
    hide Entry;
    var row := StateRow(11);
    EntryIs(row, 0, 'S', 'K', ' ');
    EntryIs(row, 1, 'A', 'B', ' ');
    EntryIs(row, 2, 'B', 'C', ' ');
    EntryIs(row, 3, 'N', 'W', 'T');
    EntryIs(row, 4, 'N', 'F', ' ');
    StateAt(55);
    StateAt(56);
    StateAt(57);
    StateAt(58);
    StateAt(59);
  }

  lemma States12()
    ensures STATES[60..65] == ["LB", "NU", "YT", "PEI", "DC"]
  {
    hide STATES;
    hide Entry;
    var row := StateRow(12);
    EntryIs(row, 0, 'L', 'B', ' ');
    EntryIs(row, 1, 'N', 'U', ' ');
    EntryIs(row, 2, 'Y', 'T', ' ');
    EntryIs(row, 3, 'P', 'E', 'I');
    EntryIs(row, 4, 'D', 'C', ' ');
    StateAt(60);
    StateAt(61);
    StateAt(62);
    StateAt(63);
    StateAt(64);
  }

  /** First position of a text in a table, or the table's length. */
  function FindText(table: seq<string>, s: string): (i: nat)
    ensures i <= |table|
    ensures i < |table| ==> table[i] == s
    ensures i < |table| <==> s in table
  {
    if table == [] || table[0] == s then 0 else 1 + FindText(table[1..], s)
  }

  method SearchTable(table: seq<string>, s: string) returns (i: nat)
    ensures i == FindText(table, s)
  {
    i := 0;
    while i < |table| && table[i] != s
      invariant i <= |table|
      invariant FindText(table, s) == i + FindText(table[i..], s)
    {
      assert table[i..][1..] == table[i + 1..];
      i := i + 1;
    }
  }

  lemma TableSizes()
    ensures |SECTIONS| == 84 && |STATES| == 65
  {
  }

  /** The 7-bit section field: the table index, or 0 for an unknown section. */
  function EncodeSection(section: string): (n: nat)
    ensures n < 84
  {
    TableSizes();
    var i := FindText(SECTIONS, Upper(section));
    if |section| <= 3 && i < |SECTIONS| then i else 0
  }

  /** A section is read back exactly when it is in the table. */
  lemma SectionExact(section: string)
    ensures |SECTIONS| == 84
    ensures SECTIONS[EncodeSection(section)] == Upper(section) <==> Upper(section) in SECTIONS
  {
    TableSizes();
  }

  datatype S13 = Serial(serial: nat) | State(state: string)

  /** What the C type can hold: a `uint16_t`, and a NUL-terminated array of 3 characters, which is too short
      for the table's NWT and PEI. */
  predicate StorableS13(s: S13) {
    match s
    case Serial(k) => k < 0x1_0000
    case State(name) => |name| <= 2
  }

  type StoredS13 = s: S13 | StorableS13(s) witness Serial(0)

  function EncodeS13(s: S13): (n: nat)
    ensures n < 0x2000
  {
    TableSizes();
    match s
    case Serial(k) => if k <= 7999 then k else 0
    case State(name) =>
      var i := FindText(STATES, Upper(name));
      if |name| <= 3 && i < |STATES| then 8001 + i else 0
  }

  function DecodeS13(n: nat): Option<S13> {
    if n <= 7999 then Some(Serial(n))
    else if 8001 <= n < 8001 + |STATES| then Some(State(STATES[n - 8001]))
    else None
  }

  predicate CanonicalS13(s: S13) {
    match s
    case Serial(k) => k <= 7999
    case State(name) => Upper(name) in STATES
  }

  function NormalS13(s: S13): S13 {
    match s
    case Serial(k) => s
    case State(name) => State(Upper(name))
  }

  lemma S13Exact(s: S13)
    ensures DecodeS13(EncodeS13(s)) == Some(NormalS13(s)) <==> CanonicalS13(s)
  {
    hide EncodeS13;
    hide STATES;
    TableSizes();
    match s
    case Serial(k) => TableNumbers(k, "");
    case State(name) => TableNumbers(0, name);
  }

  /** What is out of range or unknown is numbered 0, like serial number 0 and the first section. */
  lemma TableNumbers(k: nat, name: string)
    ensures EncodeS13(Serial(k)) == if k <= 7999 then k else 0
    ensures var n, u := EncodeS13(State(name)), Upper(name);
            if u in STATES then 8001 <= n < 8066 && STATES[n - 8001] == u else n == 0
    ensures Upper(name) !in SECTIONS ==> EncodeSection(name) == 0
    ensures EncodeK3(k) == if k <= 5 then k else 0
  {
    TableSizes();
    hide SECTIONS;
  }

  // ------------------------------------------------------------ small fields

  datatype R2 = R2Blank | R2Rrr | R2Rr73 | R2SeventyThree

  function EncodeR2(r: R2): nat {
    match r
    case R2Blank => 0
    case R2Rrr => 1
    case R2Rr73 => 2
    case R2SeventyThree => 3
  }

  function DecodeR2(n: nat): R2 {
    if n == 1 then R2Rrr else if n == 2 then R2Rr73 else if n == 3 then R2SeventyThree else R2Blank
  }

  function EncodeR3(report: int): (n: nat)
    ensures n < 8
  {
    if report < 2 || report > 9 then 0 else report - 2
  }

  /** Clamped to -30..32, then halved; the division is of a non-negative number. */
  function EncodeR5(report: int): (n: nat)
    ensures n < 32
  {
    ((if report < -30 then -30 else if report > 32 then 32 else report) + 30) / 2
  }

  function EncodeK3(fdClass: nat): (n: nat)
    ensures n < 8
  {
    if fdClass > 5 then 0 else fdClass
  }

  /** Reports survive exactly in range, and for the 5-bit field exactly when also even. */
  lemma ReportsExact(report: int)
    ensures EncodeR3(report) + 2 == report <==> 2 <= report <= 9
    ensures 2 * EncodeR5(report) - 30 == report <==> -30 <= report <= 32 && report % 2 == 0
    ensures -30 <= report <= 32 && report % 2 != 0 ==> 2 * EncodeR5(report) - 30 == report - 1
    ensures !(2 <= report <= 9) ==> EncodeR3(report) == 0
    ensures (report < -30 ==> EncodeR5(report) == 0) && (report > 32 ==> EncodeR5(report) == 31)
  {
  }
}
