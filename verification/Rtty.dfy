/** The RTTY generator: text to International Telegraph Alphabet No. 2 codes with shifts, and codes to
    start-stop symbols (src/modes/encoders/rtty.c). The alphabet is the one of ITU-T Recommendation S.1,
    table 1. Offsets are reals; a bit's and a stop's duration are taken as given. */
module Rtty {
  import opened Machine

  const LTRS_SHIFT: nat := 0x1F
  const FIGS_SHIFT: nat := 0x1B
  const SPACE: nat := 0x04
  const CR: nat := 0x08
  const LF: nat := 0x02
  const NUL: char := '\0'

  const LTRS: string := [
    NUL, 'E', '\n', 'A', ' ', 'S', 'I', 'U', '\r', 'D', 'R', 'J', 'N', 'F', 'C', 'K',
    'T', 'Z', 'L', 'W', 'H', 'Y', 'P', 'Q', 'O', 'B', 'G', NUL, 'M', 'X', 'V', NUL]

  const FIGS: string := [
    NUL, '3', '\n', '-', ' ', '\'', '8', '7', '\r', '\U{05}', '4', '\U{07}', ',', '!', ':', '(',
    '5', '+', ')', '2', '#', '6', '0', '1', '9', '?', '&', NUL, '.', '/', '=', NUL]

  datatype Shift = Any | Ltrs | Figs

  type Code = c: int | 0 <= c < 32

  /** A code and the shift it is printed under. */
  datatype Coded = Coded(code: Code, shift: Shift)

  /** First place of a character in a table. */
  function Place(table: string, c: char): (p: Option<nat>)
    ensures p.Some? ==> p.value < |table| && table[p.value] == c && c !in table[..p.value]
    ensures p.None? ==> c !in table
  {
    if table == [] then None
    else if table[0] == c then Some(0)
    else
      var p := Place(table[1..], c);
      if p.None? then None else Some(p.value + 1)
  }

  function AsciiToIta2(ch: char): Option<Coded> {
    var c := ToUpper(ch);
    if c == ' ' then Some(Coded(SPACE, Any))
    else if c == '\r' then Some(Coded(CR, Any))
    else if c == '\n' then Some(Coded(LF, Any))
    else if Place(LTRS, c).Some? then Some(Coded(Place(LTRS, c).value, Ltrs))
    else if Place(FIGS, c).Some? then Some(Coded(Place(FIGS, c).value, Figs))
    else None
  }

  function ShiftCode(shift: Shift): Code {
    if shift.Ltrs? then LTRS_SHIFT else FIGS_SHIFT
  }

  /** The shift in force after a code that needs `needed`. */
  function After(state: Shift, needed: Shift): Shift {
    if needed.Any? then state else needed
  }

  function WithShift(state: Shift, c: Coded): seq<Code> {
    (if c.shift.Any? || c.shift == state then [] else [ShiftCode(c.shift)]) + [c.code]
  }

  /** The codes for a text, from a shift state. */
  function Encoded(state: Shift, text: string): seq<Code>
    decreases |text|
  {
    if text == [] then []
    else match AsciiToIta2(text[0])
      case None => Encoded(state, text[1..])
      case Some(c) => WithShift(state, c) + Encoded(After(state, c.shift), text[1..])
  }

  // ------------------------------------------------------------- the receiver

  function Table(state: Shift): string {
    if state.Figs? then FIGS else LTRS
  }

  /** The letters of a teleprinter, by the alphabet of Recommendation S.1. */
  function LetterOf(code: Code): char {
    match code
    case 3 => 'A' case 25 => 'B' case 14 => 'C' case 9 => 'D' case 1 => 'E' case 13 => 'F' case 26 => 'G'
    case 20 => 'H' case 6 => 'I' case 11 => 'J' case 15 => 'K' case 18 => 'L' case 28 => 'M' case 12 => 'N'
    case 24 => 'O' case 22 => 'P' case 23 => 'Q' case 10 => 'R' case 5 => 'S' case 16 => 'T'
    case 7 => 'U' case 30 => 'V' case 19 => 'W' case 29 => 'X' case 21 => 'Y' case 17 => 'Z'
    case _ => NUL
  }

  /** Its figures, as wired for this alphabet. */
  function FigureOf(code: Code): char {
    match code
    case 22 => '0' case 23 => '1' case 19 => '2' case 1 => '3' case 10 => '4'
    case 16 => '5' case 21 => '6' case 7 => '7' case 6 => '8' case 24 => '9'
    case 3 => '-' case 5 => '\'' case 9 => '\U{05}' case 11 => '\U{07}' case 12 => ','
    case 13 => '!' case 14 => ':' case 15 => '(' case 17 => '+' case 18 => ')'
    case 20 => '#' case 25 => '?' case 26 => '&' case 28 => '.' case 29 => '/' case 30 => '='
    case _ => NUL
  }

  function Glyph(state: Shift, code: Code): char {
    if code == 4 then ' ' else if code == 8 then '\r' else if code == 2 then '\n'
    else if state.Figs? then FigureOf(code) else LetterOf(code)
  }

  /** The transmitter's tables agree with the teleprinter's. */
  lemma GlyphIs(state: Shift, code: Code)
    requires PrintsCode(code)
    ensures Glyph(state, code) == Table(state)[code]
  {
    if state.Figs? {
      FigureIs(code);
    } else {
      LetterIs(code);
    }
    hide LTRS;
    hide FIGS;
  }

  lemma LetterIs(code: Code)
    ensures LTRS[code] == if code == 4 then ' ' else if code == 8 then '\r' else if code == 2 then '\n'
                         else LetterOf(code)
  {
  }

  lemma FigureIs(code: Code)
    ensures FIGS[code] == if code == 4 then ' ' else if code == 8 then '\r' else if code == 2 then '\n'
                         else FigureOf(code)
  {
  }

  /** What a teleprinter prints: the two shifts, 31 and 27, and blanks print nothing. */
  function Printed(state: Shift, codes: seq<Code>): string
    decreases |codes|
  {
    if codes == [] then []
    else if codes[0] == 31 then Printed(Ltrs, codes[1..])
    else if codes[0] == 27 then Printed(Figs, codes[1..])
    else if codes[0] == 0 then Printed(state, codes[1..])
    else [Glyph(state, codes[0])] + Printed(state, codes[1..])
  }

  predicate Encodable(c: char) {
    AsciiToIta2(c).Some?
  }

  /** The characters that have a code. */
  lemma EncodableIs(c: char)
    requires c != NUL
    ensures Encodable(c) <==>
            IsAlpha(c) || IsDigit(c) || IsControl(c) ||
            c in "-',!:()+#?&./=" || c == '\U{05}' || c == '\U{07}'
  {
    var u := ToUpper(c);
    LettersAre(u);
    FiguresAre(u);
    hide LTRS;
    hide FIGS;
    hide Place;
  }

  lemma LettersAre(u: char)
    requires u != NUL
    ensures u in LTRS <==> IsUpper(u) || IsControl(u)
  {
    assert LTRS[3] == 'A' && LTRS[25] == 'B' && LTRS[14] == 'C' && LTRS[9] == 'D' && LTRS[1] == 'E';
  }

  lemma FiguresAre(u: char)
    requires u != NUL
    ensures u in FIGS <==>
            IsDigit(u) || IsControl(u) || u in "-',!:()+#?&./=" || u == '\U{05}' || u == '\U{07}'
  {
  }

  /** The upper-cased text without the characters that have no code. */
  function Sendable(text: string): string {
    if text == [] then []
    else if Encodable(text[0]) then [ToUpper(text[0])] + Sendable(text[1..])
    else Sendable(text[1..])
  }

  predicate CString(text: string) {
    NUL !in text
  }

  predicate Shifted(state: Shift) {
    !state.Any?
  }

  predicate PrintsCode(code: Code) {
    code != 0 && code != LTRS_SHIFT && code != FIGS_SHIFT
  }

  /** No character but the blank filler appears twice. */
  predicate Unambiguous(table: string) {
    UniqueFrom(table, 0, |table|)
  }

  /** The characters at places from `low` to `high` do not come again. */
  predicate UniqueFrom(table: string, low: nat, high: nat) {
    forall i, j :: low <= i < high && i < j < |table| && table[i] != NUL ==> table[i] != table[j]
  }

  predicate IsControl(c: char) {
    c == ' ' || c == '\n' || c == '\r'
  }

  lemma TablesUnambiguous(table: string)
    requires table == LTRS || table == FIGS
    ensures Unambiguous(table)
  {
    if table == LTRS {
      LtrsUnambiguous();
    } else {
      FigsUnambiguous();
    }
  }

  lemma LtrsUnambiguous()
    ensures Unambiguous(LTRS)
  {
    LtrsFirstHalf();
    LtrsSecondHalf();
  }

  lemma LtrsFirstHalf()
    ensures UniqueFrom(LTRS, 0, 10)
  {
  }

  lemma LtrsSecondHalf()
    ensures UniqueFrom(LTRS, 10, 32)
  {
  }

  lemma FigsUnambiguous()
    ensures Unambiguous(FIGS)
  {
    FigsFirstHalf();
    FigsSecondHalf();
  }

  lemma FigsFirstHalf()
    ensures UniqueFrom(FIGS, 0, 10)
  {
  }

  lemma FigsSecondHalf()
    ensures UniqueFrom(FIGS, 10, 32)
  {
  }

  lemma LtrsTable()
    ensures forall i :: 0 <= i < 32 ==> (LTRS[i] == NUL <==> !PrintsCode(i)) && ToUpper(LTRS[i]) == LTRS[i]
    ensures forall i :: 0 <= i < 32 && IsControl(LTRS[i]) ==> i == SPACE || i == CR || i == LF
  {
  }

  lemma FigsTable()
    ensures forall i :: 0 <= i < 32 ==> (FIGS[i] == NUL <==> !PrintsCode(i)) && ToUpper(FIGS[i]) == FIGS[i]
    ensures forall i :: 0 <= i < 32 && IsControl(FIGS[i]) ==> i == SPACE || i == CR || i == LF
  {
  }

  lemma TableCodes(table: string)
    requires table == LTRS || table == FIGS
    ensures |table| == 32
    ensures forall i :: 0 <= i < 32 ==> (table[i] == NUL <==> !PrintsCode(i)) && ToUpper(table[i]) == table[i]
    ensures forall i :: 0 <= i < 32 && IsControl(table[i]) ==> i == SPACE || i == CR || i == LF
  {
    if table == LTRS {
      LtrsTable();
    } else {
      FigsTable();
    }
  }

  /** Letters and figures share only the three controls. */
  lemma TablesDisjoint()
    ensures forall i, j :: 0 <= i < 32 && 0 <= j < 32 && LTRS[i] == FIGS[j] ==> LTRS[i] == NUL || IsControl(LTRS[i])
  {
    assert forall i :: 0 <= i < 32 ==> LTRS[i] == NUL || IsControl(LTRS[i]) || 'A' <= LTRS[i] <= 'Z';
    assert forall j :: 0 <= j < 32 ==> !('A' <= FIGS[j] <= 'Z');
    hide LTRS;
    hide FIGS;
  }

  lemma ControlCodes()
    ensures |LTRS| == |FIGS| == 32
    ensures LTRS[SPACE] == FIGS[SPACE] == ' ' && LTRS[CR] == FIGS[CR] == '\r' && LTRS[LF] == FIGS[LF] == '\n'
  {
  }

  lemma PlaceIs(table: string, i: nat)
    requires i < |table| && Unambiguous(table) && table[i] != NUL
    ensures Place(table, table[i]) == Some(i)
  {
    var p := Place(table, table[i]).value;
    assert forall k :: 0 <= k < p ==> table[..p][k] == table[k];
  }

  lemma CodeInTable(ch: char, state: Shift)
    requires Encodable(ch) && ch != NUL && Shifted(state)
    ensures var c := AsciiToIta2(ch).value;
            PrintsCode(c.code) && Table(After(state, c.shift))[c.code] == ToUpper(ch)
  {
    ControlCodes();
    LtrsTable();
    FigsTable();
    hide Place;
    hide Unambiguous;
  }

  /** The code found for a character prints that character under the shift it asks for. */
  lemma CodePrints(ch: char, state: Shift)
    requires Encodable(ch) && ch != NUL && Shifted(state)
    ensures var c := AsciiToIta2(ch).value;
            PrintsCode(c.code) && Glyph(After(state, c.shift), c.code) == ToUpper(ch)
  {
    CodeInTable(ch, state);
    GlyphIs(After(state, AsciiToIta2(ch).value.shift), AsciiToIta2(ch).value.code);
    hide AsciiToIta2;
    hide Glyph;
    hide Table;
  }

  /** A code that prints a character under a shift is that character's own code, and needs no other shift. */
  lemma PrintedIsCoded(code: Code, state: Shift)
    requires PrintsCode(code) && Shifted(state)
    ensures var c := AsciiToIta2(Glyph(state, code));
            c.Some? && c.value.code == code && (c.value.shift.Any? || c.value.shift == state)
  {
    hide LTRS;
    hide FIGS;
    hide Place;
    hide Unambiguous;
    hide Glyph;
    GlyphIs(state, code);
    ControlCodes();
    TableCodes(Table(state));
    TablesDisjoint();
    TablesUnambiguous(Table(state));
    PlaceIs(Table(state), code);
  }

  // ---------------------------------------------------------------- the laws

  /** A teleprinter that starts in letters prints the upper-cased text without its unencodable characters. */
  lemma {:induction false} TextRoundTrip(state: Shift, text: string)
    requires CString(text) && Shifted(state)
    ensures Printed(state, Encoded(state, text)) == Sendable(text)
    decreases |text|
  {
    hide AsciiToIta2;
    hide Glyph;
    if text != [] {
      var c := AsciiToIta2(text[0]);
      if c.None? {
        TextRoundTrip(state, text[1..]);
      } else {
        var next := After(state, c.value.shift);
        CodePrints(text[0], state);
        TextRoundTrip(next, text[1..]);
        PrintsAfter(state, c.value, Encoded(next, text[1..]));
      }
    }
  }

  lemma PrintsAfter(state: Shift, c: Coded, rest: seq<Code>)
    requires Shifted(state) && PrintsCode(c.code)
    ensures var next := After(state, c.shift);
            Printed(state, WithShift(state, c) + rest) == [Glyph(next, c.code)] + Printed(next, rest)
  {
    var next := After(state, c.shift);
    assert ([c.code] + rest)[1..] == rest;
    if next != state {
      var codes := [ShiftCode(c.shift), c.code] + rest;
      assert codes[1..] == [c.code] + rest;
    }
  }

  /** The number of codes for a text. */
  function Cost(state: Shift, text: string): nat {
    |Encoded(state, text)|
  }

  /** Being in the other shift costs one code at most. */
  lemma {:induction false} ShiftCostsOne(state: Shift, other: Shift, text: string)
    requires Shifted(state) && Shifted(other)
    ensures Cost(state, text) <= Cost(other, text) + 1
    decreases |text|
  {
    hide AsciiToIta2;
    if text != [] {
      var c := AsciiToIta2(text[0]);
      if c.None? || c.value.shift.Any? {
        ShiftCostsOne(state, other, text[1..]);
      }
    }
  }

  lemma CostOfPrinted(state: Shift, code: Code, text: string)
    requires Shifted(state) && PrintsCode(code)
    ensures Cost(state, [Glyph(state, code)] + text) == 1 + Cost(state, text)
  {
    PrintedIsCoded(code, state);
    hide AsciiToIta2;
    hide Glyph;
    var whole := [Glyph(state, code)] + text;
    assert whole[1..] == text;
  }

  /** No code sequence that prints the same is shorter. */
  lemma {:induction false} Shortest(state: Shift, codes: seq<Code>)
    requires Shifted(state)
    ensures Cost(state, Printed(state, codes)) <= |codes|
    decreases |codes|
  {
    hide Glyph;
    hide Encoded;
    hide Cost;
    if codes == [] {
      CostOfNothing(state);
    } else {
      var rest := codes[1..];
      if codes[0] == LTRS_SHIFT {
        Shortest(Ltrs, rest);
        ShiftCostsOne(state, Ltrs, Printed(Ltrs, rest));
      } else if codes[0] == FIGS_SHIFT {
        Shortest(Figs, rest);
        ShiftCostsOne(state, Figs, Printed(Figs, rest));
      } else {
        Shortest(state, rest);
        if codes[0] != 0 {
          CostOfPrinted(state, codes[0], Printed(state, rest));
        }
      }
    }
  }

  lemma CostOfNothing(state: Shift)
    ensures Cost(state, []) == 0
  {
  }

  /** Encoding the sent text again changes nothing. */
  lemma {:induction false} SendableCosts(state: Shift, text: string)
    requires CString(text)
    ensures Encoded(state, Sendable(text)) == Encoded(state, text)
    decreases |text|
  {
    if text != [] {
      UpperCodes(text[0]);
      var c := AsciiToIta2(text[0]);
      hide AsciiToIta2;
      if c.None? {
        SendableCosts(state, text[1..]);
      } else {
        SendableCosts(After(state, c.value.shift), text[1..]);
        assert Sendable(text)[1..] == Sendable(text[1..]);
      }
    }
  }

  lemma UpperCodes(c: char)
    ensures AsciiToIta2(ToUpper(c)) == AsciiToIta2(c)
  {
    hide Place;
  }

  /** Shift insertion is optimal: among all code sequences that print the same from the letters shift, the
      generator's is as short as any. */
  lemma {:induction false} ShiftsOptimal(text: string, codes: seq<Code>)
    requires CString(text) && Printed(Ltrs, codes) == Sendable(text)
    ensures |Encoded(Ltrs, text)| <= |codes|
  {
    Shortest(Ltrs, codes);
    SendableCosts(Ltrs, text);
  }

  // ---------------------------------------------------------------- symbols

  datatype Symbol = Symbol(offset: real, duration: nat, on: bool)

  datatype Config = Config(shift: nat, reversed: bool, centred: bool, bitUsec: nat, stopUsec: nat)

  function Mark(config: Config): real {
    var shift := config.shift as real;
    if config.centred then (if config.reversed then -(shift / 2.0) else shift / 2.0)
    else if config.reversed then shift else 0.0
  }

  function SpaceOffset(config: Config): real {
    var shift := config.shift as real;
    if config.centred then (if config.reversed then shift / 2.0 else -(shift / 2.0))
    else if config.reversed then 0.0 else shift
  }

  function ShiftedRight(code: nat, b: nat): nat {
    if b == 0 then code else ShiftedRight(code, b - 1) / 2
  }

  function CodeBit(code: nat, b: nat): bit {
    ShiftedRight(code, b) % 2
  }

  /** Start bit, five data bits with the lowest first, stop bit. */
  function Character(config: Config, code: Code): (s: seq<Symbol>)
    ensures |s| == 7
  {
    [Symbol(SpaceOffset(config), config.bitUsec, true)] +
    seq(5, b requires 0 <= b < 5 => DataSymbol(config, CodeBit(code, b))) +
    [Symbol(Mark(config), config.stopUsec, true)]
  }

  function DataSymbol(config: Config, b: bit): Symbol {
    Symbol(if b == 1 then Mark(config) else SpaceOffset(config), config.bitUsec, true)
  }

  function Characters(config: Config, codes: seq<Code>): (s: seq<Symbol>)
    ensures |s| == 7 * |codes|
  {
    if codes == [] then [] else Character(config, codes[0]) + Characters(config, codes[1..])
  }

  /** The seven symbols of a code: all keyed, the first a space, then the five bits of the code from the lowest,
      a mark for a one, the last a mark of its own length. */
  lemma CharacterSpelled(config: Config, code: Code)
    ensures var s := Character(config, code);
            (forall i :: 0 <= i < 7 ==>
               s[i].on && s[i].duration == if i == 6 then config.stopUsec else config.bitUsec) &&
            s[0].offset == SpaceOffset(config) && s[6].offset == Mark(config) &&
            s[1].offset == (if code % 2 == 1 then Mark(config) else SpaceOffset(config)) &&
            s[2].offset == (if code / 2 % 2 == 1 then Mark(config) else SpaceOffset(config)) &&
            s[3].offset == (if code / 4 % 2 == 1 then Mark(config) else SpaceOffset(config)) &&
            s[4].offset == (if code / 8 % 2 == 1 then Mark(config) else SpaceOffset(config)) &&
            s[5].offset == (if code / 16 % 2 == 1 then Mark(config) else SpaceOffset(config))
  {
    CharacterAt(config, code);
    BitsAre(code);
    hide CodeBit;
    hide Mark;
    hide SpaceOffset;
    hide Character;
    var s := Character(config, code);
    forall b | 0 <= b < 5 ensures s[b + 1] == DataSymbol(config, CodeBit(code, b)) {
    }
    assert s[0 + 1] == DataSymbol(config, CodeBit(code, 0)) && s[1 + 1] == DataSymbol(config, CodeBit(code, 1));
    assert s[2 + 1] == DataSymbol(config, CodeBit(code, 2)) && s[3 + 1] == DataSymbol(config, CodeBit(code, 3));
    assert s[4 + 1] == DataSymbol(config, CodeBit(code, 4));
  }

  lemma BitsAre(code: Code)
    ensures CodeBit(code, 0) == code % 2 && CodeBit(code, 1) == code / 2 % 2 && CodeBit(code, 2) == code / 4 % 2
    ensures CodeBit(code, 3) == code / 8 % 2 && CodeBit(code, 4) == code / 16 % 2
  {
    assert ShiftedRight(code, 0) == code && ShiftedRight(code, 1) == code / 2;
    assert ShiftedRight(code, 2) == code / 2 / 2 == code / 4;
    assert ShiftedRight(code, 3) == code / 4 / 2 == code / 8;
    assert ShiftedRight(code, 4) == code / 8 / 2 == code / 16;
    hide ShiftedRight;
  }

  predicate Timed(config: Config, symbols: seq<Symbol>) {
    forall i :: 0 <= i < |symbols| ==>
      symbols[i].on && symbols[i].duration == if i % 7 == 6 then config.stopUsec else config.bitUsec
  }

  /** Every symbol of a transmission is keyed, and lasts a bit, or the stop length if it ends a character. */
  lemma {:induction false} CharactersTimed(config: Config, codes: seq<Code>)
    ensures Timed(config, Characters(config, codes))
    decreases |codes|
  {
    hide Character;
    if codes != [] {
      CharacterSpelled(config, codes[0]);
      CharactersTimed(config, codes[1..]);
      TimedConcat(config, Character(config, codes[0]), Characters(config, codes[1..]));
    }
  }

  lemma TimedConcat(config: Config, first: seq<Symbol>, rest: seq<Symbol>)
    requires |first| == 7 && Timed(config, first) && Timed(config, rest)
    ensures Timed(config, first + rest)
  {
    var s := first + rest;
    forall i | 0 <= i < |s|
      ensures s[i].on && s[i].duration == if i % 7 == 6 then config.stopUsec else config.bitUsec
    {
      if i >= 7 {
        var j := i - 7;
        assert s[i] == rest[j] && i % 7 == j % 7;
      }
    }
  }

  // --------------------------------------------------------- the demodulator

  function Read(config: Config, s: Symbol): bit {
    if s.offset == Mark(config) then 1 else 0
  }

  function ReadCode(config: Config, group: seq<Symbol>): Code
    requires |group| == 7
  {
    Read(config, group[1]) + 2 * Read(config, group[2]) + 4 * Read(config, group[3]) +
    8 * Read(config, group[4]) + 16 * Read(config, group[5])
  }

  /** Cuts the symbols into groups of seven and reads the data bits of each. */
  function Demodulated(config: Config, symbols: seq<Symbol>): seq<Code> {
    if |symbols| < 7 then []
    else [ReadCode(config, symbols[..7])] + Demodulated(config, symbols[7..])
  }

  lemma OffsetsDiffer(config: Config)
    ensures Mark(config) != SpaceOffset(config) <==> config.shift != 0
  {
  }

  /** The tones are `shift` apart, symmetric around zero when centred and from zero up otherwise; the mark is
      the upper one exactly when one of the two options is set; a reversed shift swaps them. */
  lemma Tones(config: Config)
    ensures var mark, space, shift := Mark(config), SpaceOffset(config), config.shift as real;
            var other := config.(reversed := !config.reversed);
            Mark(other) == space && SpaceOffset(other) == mark &&
            (mark - space == shift || space - mark == shift) &&
            mark + space == (if config.centred then 0.0 else shift) &&
            (mark > space <==> shift > 0.0 && config.centred != config.reversed)
  {
  }

  lemma BitsOfCode(code: Code)
    ensures code == CodeBit(code, 0) + 2 * CodeBit(code, 1) + 4 * CodeBit(code, 2) + 8 * CodeBit(code, 3)
                    + 16 * CodeBit(code, 4)
  {
    var c1, c2, c3, c4 := code / 2, code / 2 / 2, code / 2 / 2 / 2, code / 2 / 2 / 2 / 2;
    assert ShiftedRight(code, 0) == code;
    assert ShiftedRight(code, 1) == c1;
    assert ShiftedRight(code, 2) == c2;
    assert ShiftedRight(code, 3) == c3;
    assert ShiftedRight(code, 4) == c4;
    hide ShiftedRight;
  }

  lemma CharacterAt(config: Config, code: Code)
    ensures var s := Character(config, code);
            s[0] == Symbol(SpaceOffset(config), config.bitUsec, true) &&
            s[6] == Symbol(Mark(config), config.stopUsec, true) &&
            forall b :: 0 <= b < 5 ==> s[b + 1] == DataSymbol(config, CodeBit(code, b))
  {
    hide CodeBit;
  }

  lemma ReadCharacter(config: Config, code: Code)
    ensures config.shift != 0 ==> ReadCode(config, Character(config, code)) == code
    ensures config.shift == 0 ==> ReadCode(config, Character(config, code)) == LTRS_SHIFT
  {
    OffsetsDiffer(config);
    BitsOfCode(code);
    var s := Character(config, code);
    CharacterAt(config, code);
    hide CodeBit;
    hide Mark;
    hide SpaceOffset;
    hide Character;
    forall b | 0 <= b < 5 ensures Read(config, s[b + 1]) == if config.shift != 0 then CodeBit(code, b) else 1 {
      assert s[b + 1] == DataSymbol(config, CodeBit(code, b));
    }
    assert Read(config, s[0 + 1]) == if config.shift != 0 then CodeBit(code, 0) else 1;
    assert Read(config, s[1 + 1]) == if config.shift != 0 then CodeBit(code, 1) else 1;
    assert Read(config, s[2 + 1]) == if config.shift != 0 then CodeBit(code, 2) else 1;
    assert Read(config, s[3 + 1]) == if config.shift != 0 then CodeBit(code, 3) else 1;
    assert Read(config, s[4 + 1]) == if config.shift != 0 then CodeBit(code, 4) else 1;
  }

  lemma {:induction false} DemodulatedCharacters(config: Config, codes: seq<Code>)
    ensures config.shift != 0 ==> Demodulated(config, Characters(config, codes)) == codes
    ensures config.shift == 0 ==> Demodulated(config, Characters(config, codes)) == Repeat(LTRS_SHIFT, |codes|)
    decreases |codes|
  {
    hide Character;
    hide ReadCode;
    if codes != [] {
      var s := Characters(config, codes);
      assert s[..7] == Character(config, codes[0]) && s[7..] == Characters(config, codes[1..]);
      ReadCharacter(config, codes[0]);
      DemodulatedCharacters(config, codes[1..]);
    }
  }

  lemma {:induction false} ShiftsPrintNothing(n: nat)
    ensures Printed(Ltrs, Repeat(LTRS_SHIFT, n)) == []
  {
    if n > 0 {
      assert Repeat(LTRS_SHIFT, n)[1..] == Repeat(LTRS_SHIFT, n - 1);
      ShiftsPrintNothing(n - 1);
    }
  }

  /** Over the air and back: the receiver prints the text exactly when the two tones differ, or when there
      was nothing to send. */
  lemma {:induction false} OverTheAir(config: Config, text: string)
    requires CString(text)
    ensures Printed(Ltrs, Demodulated(config, Characters(config, Encoded(Ltrs, text)))) == Sendable(text)
            <==> config.shift != 0 || Sendable(text) == []
  {
    var codes := Encoded(Ltrs, text);
    DemodulatedCharacters(config, codes);
    TextRoundTrip(Ltrs, text);
    ShiftsPrintNothing(|codes|);
  }

  // ---------------------------------------------------------------- the loops

  method FindCode(ch: char) returns (found: bool, code: Code, shift: Shift)
    ensures found <==> AsciiToIta2(ch).Some?
    ensures found ==> AsciiToIta2(ch) == Some(Coded(code, shift))
  {
    found, code, shift := true, 0, Any;
    var c := ToUpper(ch);
    if c == ' ' {
      code := SPACE;
      return;
    }
    if c == '\r' {
      code := CR;
      return;
    }
    if c == '\n' {
      code := LF;
      return;
    }
    var place := Search(LTRS, c);
    if place.Some? {
      code, shift := place.value, Ltrs;
      return;
    }
    place := Search(FIGS, c);
    if place.Some? {
      code, shift := place.value, Figs;
      return;
    }
    found := false;
  }

  /** The scan of a table. */
  method Search(table: string, c: char) returns (place: Option<nat>)
    ensures place == Place(table, c)
  {
    for i := 0 to |table|
      invariant c !in table[..i]
    {
      if table[i] == c {
        FirstPlace(table, c, i);
        return Some(i);
      }
    }
    assert table[..|table|] == table;
    return None;
  }

  lemma FirstPlace(table: string, c: char, i: nat)
    requires i < |table| && table[i] == c && c !in table[..i]
    ensures Place(table, c) == Some(i)
  {
    var p := Place(table, c).value;
    assert forall k :: 0 <= k < p ==> table[..p][k] == table[k];
    assert forall k :: 0 <= k < i ==> table[..i][k] == table[k];
  }

  method PushBaudot(code: Code, symbols: array<Symbol>, index: nat, config: Config) returns (next: nat)
    requires index + 7 <= symbols.Length
    modifies symbols
    ensures next == index + 7
    ensures symbols[..next] == old(symbols[..index]) + Character(config, code)
    ensures symbols[next..] == old(symbols[next..])
  {
    hide Character;
    hide Mark;
    hide SpaceOffset;
    ghost var s := Character(config, code);
    CharacterAt(config, code);
    symbols[index] := Symbol(SpaceOffset(config), config.bitUsec, true);
    next := index + 1;
    var rest: nat := code;
    for b := 0 to 5
      invariant next == index + 1 + b
      invariant rest == ShiftedRight(code, b)
      invariant symbols[..next] == old(symbols[..index]) + s[..1 + b]
      invariant symbols[index + 7..] == old(symbols[index + 7..])
    {
      var isMark := rest % 2 == 1;
      symbols[next] := Symbol(if isMark then Mark(config) else SpaceOffset(config), config.bitUsec, true);
      assert s[b + 1] == DataSymbol(config, CodeBit(code, b)) == symbols[next];
      next := next + 1;
      rest := rest / 2;
    }
    symbols[next] := Symbol(Mark(config), config.stopUsec, true);
    next := next + 1;
  }

  /** The sizing pass reserves seven symbols a code; the emitting pass fills exactly those. */
  method Generate(text: string, config: Config) returns (symbols: array<Symbol>)
    ensures fresh(symbols)
    ensures symbols[..] == Characters(config, Encoded(Ltrs, text))
  {
    hide AsciiToIta2;
    hide Encoded;
    hide Characters;
    hide Character;
    var count := 0;
    var state := Ltrs;
    assert text[0..] == text;
    for i := 0 to |text|
      invariant Shifted(state) && count + Cost(state, text[i..]) == Cost(Ltrs, text)
    {
      EncodedFirst(state, text[i..]);
      assert text[i..][1..] == text[i + 1..];
      var found, code, shift := FindCode(text[i]);
      if found {
        if !shift.Any? && shift != state {
          count := count + 1;
          state := shift;
        }
        count := count + 1;
      }
    }
    CostOfNothing(state);
    symbols := new Symbol[count * 7](_ => Symbol(0.0, 0, false));
    var index := 0;
    state := Ltrs;
    ghost var done: seq<Code> := [];
    assert done + Encoded(Ltrs, text) == Encoded(Ltrs, text);
    CharactersOfNothing(config);
    for i := 0 to |text|
      invariant Shifted(state) && index == 7 * |done| && index + 7 * Cost(state, text[i..]) == symbols.Length
      invariant done + Encoded(state, text[i..]) == Encoded(Ltrs, text)
      invariant symbols[..index] == Characters(config, done)
    {
      EncodedFirst(state, text[i..]);
      assert text[i..][1..] == text[i + 1..];
      var found, code, shift := FindCode(text[i]);
      if found {
        ghost var c := Coded(code, shift);
        ghost var rest := Encoded(After(state, shift), text[i + 1..]);
        assert done + (WithShift(state, c) + rest) == done + WithShift(state, c) + rest;
        ghost var more := done + WithShift(state, c);
        if !shift.Any? && shift != state {
          CharactersMore(config, done, ShiftCode(shift));
          index := PushBaudot(ShiftCode(shift), symbols, index, config);
          done := done + [ShiftCode(shift)];
          state := shift;
        }
        CharactersMore(config, done, code);
        index := PushBaudot(code, symbols, index, config);
        done := done + [code];
        assert done == more;
      }
    }
    CostOfNothing(state);
    assert text[|text|..] == [];
    assert done + Encoded(state, []) == done;
    assert symbols[..index] == symbols[..];
  }

  lemma CharactersOfNothing(config: Config)
    ensures Characters(config, []) == []
  {
  }

  lemma EncodedFirst(state: Shift, text: string)
    requires text != []
    ensures Encoded(state, text) ==
      match AsciiToIta2(text[0])
      case None => Encoded(state, text[1..])
      case Some(c) => WithShift(state, c) + Encoded(After(state, c.shift), text[1..])
  {
  }

  lemma {:induction false} CharactersMore(config: Config, codes: seq<Code>, code: Code)
    ensures Characters(config, codes + [code]) == Characters(config, codes) + Character(config, code)
    decreases |codes|
  {
    hide Character;
    if codes == [] {
      assert Characters(config, [code]) == Character(config, code) + Characters(config, []);
    } else {
      assert (codes + [code])[1..] == codes[1..] + [code];
      CharactersMore(config, codes[1..], code);
    }
  }
}
