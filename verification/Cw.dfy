/** The Morse generator: marks and gaps, with gaps lengthened after the fact (src/modes/encoders/cw.c). Spacing
    follows ITU-R M.1677-1, Annex 1, Part I, section 2, except that one space makes a gap of nine dots. */
module Cw {
  import opened Machine

  const LETTER_CODES: seq<string> := [
    ".-", "-...", "-.-.", "-..", ".", "..-.", "--.", "....", "..", ".---", "-.-", ".-..", "--",
    "-.", "---", ".--.", "--.-", ".-.", "...", "-", "..-", "...-", ".--", "-..-", "-.--", "--.."]

  const DIGIT_CODES: seq<string> := [
    "-----", ".----", "..---", "...--", "....-", ".....", "-....", "--...", "---..", "----."]

  function Morse(c: char): Option<string> {
    if IsUpper(c) then Some(LETTER_CODES[Letter(c)])
    else if IsDigit(c) then Some(DIGIT_CODES[Digit(c)])
    else None
  }

  predicate Supported(c: char) {
    Morse(c).Some?
  }

  datatype Symbol = Symbol(on: bool, duration: nat)

  /** 32-bit addition to the last gap. */
  function Lengthened(symbols: seq<Symbol>, extra: nat): (s: seq<Symbol>)
    ensures |s| == |symbols|
  {
    var last := |symbols| - 1;
    if last < 0 || symbols[last].on then symbols
    else symbols[last := Symbol(false, U32(symbols[last].duration + extra))]
  }

  function Mark(dot: nat, element: char): Symbol {
    Symbol(true, if element == '.' then dot else U32(3 * dot))
  }

  /** A mark and a one-dot gap for each element. */
  function Keyed(dot: nat, code: string): (s: seq<Symbol>)
    ensures |s| == 2 * |code|
  {
    if code == [] then [] else [Mark(dot, code[0]), Symbol(false, dot)] + Keyed(dot, code[1..])
  }

  /** The symbols after one more character of text. */
  function Sent(dot: nat, symbols: seq<Symbol>, ch: char): seq<Symbol> {
    var c := ToUpper(ch);
    if c == ' ' then Lengthened(symbols, U32(6 * dot))
    else if !Supported(c) then symbols
    else Lengthened(symbols, U32(2 * dot)) + Keyed(dot, Morse(c).value)
  }

  /** The symbols for a text. */
  function Emitted(dot: nat, text: string): seq<Symbol> {
    if text == [] then [] else Sent(dot, Emitted(dot, text[..|text| - 1]), text[|text| - 1])
  }

  // ----------------------------------------------- what the symbols should be

  /** Upper-cased, without unsupported characters. */
  function Kept(text: string): string {
    if text == [] then []
    else
      var c := ToUpper(text[|text| - 1]);
      Kept(text[..|text| - 1]) + if c == ' ' || Supported(c) then [c] else []
  }

  function WithoutLeadingSpaces(text: string): string {
    if text != [] && text[0] == ' ' then WithoutLeadingSpaces(text[1..]) else text
  }

  function Sendable(text: string): string {
    WithoutLeadingSpaces(Kept(text))
  }

  predicate Canonical(text: string) {
    (text != [] ==> text[0] != ' ') && forall i :: 0 <= i < |text| ==> text[i] == ' ' || Supported(text[i])
  }

  function LeadingSpaces(text: string): (k: nat)
    ensures k <= |text|
    ensures text[..k] == Repeat(' ', k)
    ensures k < |text| ==> text[k] != ' '
  {
    if text != [] && text[0] == ' ' then 1 + LeadingSpaces(text[1..]) else 0
  }

  /** Marks and one-dot gaps, with a gap of its own after the last mark. */
  function Spelled(dot: nat, code: string, gap: nat): (s: seq<Symbol>)
    ensures |s| == 2 * |code|
  {
    if code == [] then []
    else
      [Symbol(true, if code[0] == '.' then dot else 3 * dot), Symbol(false, if |code| == 1 then gap else dot)] +
      Spelled(dot, code[1..], gap)
  }

  /** Dots in the gap after a character: one when the text ends there, three before another character, and
      six more for each space between. */
  function GapDots(spaces: nat, final: bool): nat {
    6 * spaces + if final then 1 else 3
  }

  function Gap(dot: nat, spaces: nat, final: bool): nat {
    GapDots(spaces, final) * dot
  }

  /** The ideal timing of a text, with unbounded durations. */
  function Ideal(dot: nat, text: string): seq<Symbol>
    requires Canonical(text)
    decreases |text|
  {
    if text == [] then []
    else
      var k := LeadingSpaces(text[1..]);
      var rest := text[1 + k..];
      Spelled(dot, Morse(text[0]).value, Gap(dot, k, rest == [])) + Ideal(dot, rest)
  }

  function Wrapped(symbols: seq<Symbol>): (w: seq<Symbol>)
    ensures |w| == |symbols|
    ensures forall i :: 0 <= i < |w| ==> w[i] == Symbol(symbols[i].on, U32(symbols[i].duration))
  {
    seq(|symbols|, i requires 0 <= i < |symbols| => Symbol(symbols[i].on, U32(symbols[i].duration)))
  }

  lemma CodesNotEmpty(c: char)
    requires Supported(c)
    ensures 1 <= |Morse(c).value| <= 5
    ensures forall i :: 0 <= i < |Morse(c).value| ==> Morse(c).value[i] == '.' || Morse(c).value[i] == '-'
  {
    assert forall i :: 0 <= i < 26 ==> 1 <= |LETTER_CODES[i]| <= 5;
  }

  // ------------------------------------------------------------ back-patching

  function Stretched(symbols: seq<Symbol>, extra: nat): (s: seq<Symbol>)
    ensures |s| == |symbols|
  {
    var last := |symbols| - 1;
    if last < 0 then symbols else symbols[last := Symbol(symbols[last].on, symbols[last].duration + extra)]
  }

  lemma {:induction false} SpelledStretched(dot: nat, code: string, gap: nat, extra: nat)
    ensures Stretched(Spelled(dot, code, gap), extra) == Spelled(dot, code, gap + extra)
    decreases |code|
  {
    if |code| > 1 {
      var head := Spelled(dot, code, gap)[..2];
      assert Spelled(dot, code, gap) == head + Spelled(dot, code[1..], gap);
      StretchedLater(head, Spelled(dot, code[1..], gap), extra);
      SpelledStretched(dot, code[1..], gap, extra);
      assert Spelled(dot, code, gap + extra) == head + Spelled(dot, code[1..], gap + extra);
    }
  }

  lemma StretchedLater(a: seq<Symbol>, b: seq<Symbol>, extra: nat)
    requires b != []
    ensures Stretched(a + b, extra) == a + Stretched(b, extra)
  {
  }

  lemma {:induction false} LeadingSpacesMore(text: string, c: char)
    ensures LeadingSpaces(text + [c]) ==
            if LeadingSpaces(text) < |text| then LeadingSpaces(text)
            else if c == ' ' then |text| + 1 else |text|
  {
    if text == [] {
      assert (text + [c])[1..] == [];
    } else {
      assert (text + [c])[1..] == text[1..] + [c];
      LeadingSpacesMore(text[1..], c);
    }
  }

  lemma CanonicalRest(text: string)
    requires Canonical(text) && text != []
    ensures var k := LeadingSpaces(text[1..]);
            Supported(text[0]) && Canonical(text[1 + k..])
  {
    var k := LeadingSpaces(text[1..]);
    var rest := text[1 + k..];
    forall i | 0 <= i < |rest| ensures rest[i] == ' ' || Supported(rest[i]) {
      assert rest[i] == text[1 + k + i];
    }
    assert 1 + k < |text| ==> text[1..][k] == text[1 + k];
  }

  /** The first character with its spaces, and the rest. */
  lemma IdealFirst(dot: nat, text: string)
    requires Canonical(text) && text != []
    ensures var k := LeadingSpaces(text[1..]);
            var rest := text[1 + k..];
            Supported(text[0]) && Canonical(rest) &&
            Ideal(dot, text) == Spelled(dot, Morse(text[0]).value, Gap(dot, k, rest == [])) + Ideal(dot, rest)
  {
    CanonicalRest(text);
  }

  lemma MoreDots(k: nat, dot: nat)
    ensures Gap(dot, k, true) + 6 * dot == Gap(dot, k + 1, true)
    ensures Gap(dot, k, true) + 2 * dot == Gap(dot, k, false)
  {
  }

  /** One character with spaces after it. */
  lemma IdealOne(dot: nat, text: string)
    requires Canonical(text) && text != [] && LeadingSpaces(text[1..]) == |text| - 1
    ensures Supported(text[0])
    ensures Ideal(dot, text) == Spelled(dot, Morse(text[0]).value, Gap(dot, |text| - 1, true))
  {
    hide Gap;
    hide Ideal;
    hide Spelled;
    hide Morse;
    hide LeadingSpaces;
    IdealFirst(dot, text);
    IdealOfNothing(dot);
    assert text[1 + (|text| - 1)..] == [];
  }

  lemma IdealAlone(dot: nat, c: char)
    requires Supported(c) && c != ' '
    ensures Canonical([c]) && Ideal(dot, [c]) == Spelled(dot, Morse(c).value, dot)
  {
    assert Gap(dot, 0, true) == dot;
    hide Gap;
    hide Ideal;
    hide Spelled;
    hide Morse;
    assert [c][1..] == [];
    LeadingSpacesOfNothing();
    IdealOne(dot, [c]);
  }

  predicate Follows(text: string, c: char) {
    (c == ' ' || Supported(c)) && (text == [] ==> c != ' ')
  }

  lemma CanonicalMore(text: string, c: char)
    requires Canonical(text) && Follows(text, c)
    ensures Canonical(text + [c])
  {
    hide Morse;
  }

  lemma IdealMoreSpace(dot: nat, text: string)
    requires Canonical(text) && text != [] && LeadingSpaces(text[1..]) == |text| - 1
    ensures Canonical(text + " ")
    ensures Ideal(dot, text + " ") == Stretched(Ideal(dot, text), 6 * dot)
  {
    hide Gap;
    hide Ideal;
    hide Spelled;
    hide Stretched;
    hide Morse;
    hide LeadingSpaces;
    CanonicalMore(text, ' ');
    LeadingSpacesMore(text[1..], ' ');
    assert (text + " ")[1..] == text[1..] + " ";
    IdealOne(dot, text);
    IdealOne(dot, text + " ");
    SpelledStretched(dot, Morse(text[0]).value, Gap(dot, |text| - 1, true), 6 * dot);
    MoreDots(|text| - 1, dot);
  }

  lemma IdealMoreLetter(dot: nat, text: string, c: char)
    requires Canonical(text) && text != [] && LeadingSpaces(text[1..]) == |text| - 1 && Supported(c) && c != ' '
    ensures Canonical(text + [c])
    ensures Ideal(dot, text + [c]) == Stretched(Ideal(dot, text), 2 * dot) + Spelled(dot, Morse(c).value, dot)
  {
    hide Gap;
    hide Ideal;
    hide Spelled;
    hide Stretched;
    hide Morse;
    hide LeadingSpaces;
    CanonicalMore(text, c);
    LeadingSpacesMore(text[1..], c);
    assert (text + [c])[1..] == text[1..] + [c];
    IdealOne(dot, text);
    IdealFirst(dot, text + [c]);
    assert (text + [c])[1 + (|text| - 1)..] == [c];
    IdealAlone(dot, c);
    SpelledStretched(dot, Morse(text[0]).value, Gap(dot, |text| - 1, true), 2 * dot);
    MoreDots(|text| - 1, dot);
  }

  /** A space lengthens the last gap by six dots; a character lengthens it by two and is spelled out. */
  lemma {:induction false} IdealMore(dot: nat, text: string, c: char)
    requires Canonical(text) && Follows(text, c)
    ensures Canonical(text + [c])
    ensures Ideal(dot, text + [c]) ==
            if c == ' ' then Stretched(Ideal(dot, text), 6 * dot)
            else Stretched(Ideal(dot, text), 2 * dot) + Spelled(dot, Morse(c).value, dot)
    decreases |text|
  {
    hide Gap;
    hide Ideal;
    hide Spelled;
    hide Stretched;
    hide Morse;
    hide LeadingSpaces;
    hide Canonical;
    if text == [] {
      IdealOfNothing(dot);
      IdealAlone(dot, c);
      assert text + [c] == [c];
      assert [] + Spelled(dot, Morse(c).value, dot) == Spelled(dot, Morse(c).value, dot);
    } else if LeadingSpaces(text[1..]) == |text| - 1 {
      if c == ' ' {
        IdealMoreSpace(dot, text);
      } else {
        IdealMoreLetter(dot, text, c);
      }
    } else {
      var k := LeadingSpaces(text[1..]);
      var rest, extra := text[1 + k..], if c == ' ' then 6 * dot else 2 * dot;
      CanonicalMore(text, c);
      IdealFirst(dot, text);
      IdealFirst(dot, text + [c]);
      LeadingSpacesMore(text[1..], c);
      assert (text + [c])[1..] == text[1..] + [c];
      assert (text + [c])[1 + k..] == rest + [c];
      IdealMore(dot, rest, c);
      IdealNotEmpty(dot, rest);
      StretchedLater(Spelled(dot, Morse(text[0]).value, Gap(dot, k, false)), Ideal(dot, rest), extra);
    }
  }

  lemma IdealOfNothing(dot: nat)
    ensures Ideal(dot, []) == [] && Stretched([], 2 * dot) == []
  {
  }

  lemma LeadingSpacesOfNothing()
    ensures LeadingSpaces([]) == 0
  {
  }

  lemma IdealNotEmpty(dot: nat, text: string)
    requires Canonical(text) && text != []
    ensures Ideal(dot, text) != []
  {
    CanonicalRest(text);
    CodesNotEmpty(text[0]);
  }

  // ---------------------------------------------------- what the loop emits

  lemma KeptMore(text: string, ch: char)
    ensures var c := ToUpper(ch);
            Kept(text + [ch]) == Kept(text) + if c == ' ' || Supported(c) then [c] else []
  {
    assert (text + [ch])[..|text|] == text;
  }

  lemma {:induction false} LeadingDropped(text: string, c: char)
    ensures WithoutLeadingSpaces(text + [c]) ==
            if WithoutLeadingSpaces(text) == [] && c == ' ' then [] else WithoutLeadingSpaces(text) + [c]
    decreases |text|
  {
    if text == [] {
      assert ([] + [c])[1..] == [];
    } else if text[0] == ' ' {
      assert (text + [c])[1..] == text[1..] + [c];
      LeadingDropped(text[1..], c);
    }
  }

  /** What one more character adds to the text that is sent. */
  lemma SendableMore(text: string, ch: char)
    ensures var c := ToUpper(ch);
            Sendable(text + [ch]) == Sendable(text) +
              if (c == ' ' && Sendable(text) != []) || Supported(c) then [c] else []
  {
    var c := ToUpper(ch);
    KeptMore(text, ch);
    if c == ' ' || Supported(c) {
      LeadingDropped(Kept(text), c);
    } else {
      assert Kept(text) + [] == Kept(text);
    }
  }

  lemma {:induction false} SendableCanonical(text: string)
    ensures Canonical(Sendable(text))
    decreases |text|
  {
    if text != [] {
      var before := text[..|text| - 1];
      assert text == before + [text[|text| - 1]];
      SendableMore(before, text[|text| - 1]);
      SendableCanonical(before);
      hide Sendable;
      hide Supported;
    }
  }

  /** Keyed and unkeyed in turn, from keyed to unkeyed. */
  predicate Alternates(symbols: seq<Symbol>) {
    symbols == [] || (|symbols| >= 2 && symbols[0].on && !symbols[1].on && Alternates(symbols[2..]))
  }

  lemma {:induction false} AlternatesConcat(a: seq<Symbol>, b: seq<Symbol>)
    requires Alternates(a) && Alternates(b)
    ensures Alternates(a + b)
    decreases |a|
  {
    if a == [] {
      assert a + b == b;
    } else {
      assert (a + b)[2..] == a[2..] + b;
      AlternatesConcat(a[2..], b);
    }
  }

  lemma {:induction false} AlternatesAt(symbols: seq<Symbol>, i: nat)
    requires Alternates(symbols) && i < |symbols|
    ensures |symbols| % 2 == 0 && symbols[i].on == (i % 2 == 0)
    decreases i
  {
    if i >= 2 {
      AlternatesAt(symbols[2..], i - 2);
    } else if |symbols| > 2 {
      AlternatesEven(symbols);
    }
  }

  lemma {:induction false} AlternatesEven(symbols: seq<Symbol>)
    requires Alternates(symbols)
    ensures |symbols| % 2 == 0
    decreases |symbols|
  {
    if symbols != [] {
      AlternatesEven(symbols[2..]);
    }
  }

  lemma {:induction false} SpelledAlternates(dot: nat, code: string, gap: nat)
    ensures Alternates(Spelled(dot, code, gap))
    decreases |code|
  {
    if code != [] {
      SpelledAlternates(dot, code[1..], gap);
      assert Spelled(dot, code, gap)[2..] == Spelled(dot, code[1..], gap);
    }
  }

  lemma {:induction false} IdealAlternates(dot: nat, text: string)
    requires Canonical(text)
    ensures Alternates(Ideal(dot, text))
    decreases |text|
  {
    hide Ideal;
    hide Spelled;
    hide Morse;
    IdealOfNothing(dot);
    if text != [] {
      var k := LeadingSpaces(text[1..]);
      var rest := text[1 + k..];
      IdealFirst(dot, text);
      var head := Spelled(dot, Morse(text[0]).value, Gap(dot, k, rest == []));
      SpelledAlternates(dot, Morse(text[0]).value, Gap(dot, k, rest == []));
      IdealAlternates(dot, rest);
      AlternatesConcat(head, Ideal(dot, rest));
    }
  }

  lemma AddWrapped(x: nat, y: nat)
    ensures U32(U32(x) + U32(y)) == U32(x + y)
  {
  }

  lemma LengthenedWrapped(symbols: seq<Symbol>, extra: nat)
    requires Alternates(symbols)
    ensures Lengthened(Wrapped(symbols), U32(extra)) == Wrapped(Stretched(symbols, extra))
  {
    if symbols != [] {
      AlternatesEven(symbols);
      AlternatesAt(symbols, |symbols| - 1);
      AddWrapped(symbols[|symbols| - 1].duration, extra);
    }
    hide U32;
  }

  lemma {:induction false} KeyedWrapped(dot: nat, code: string)
    requires dot < TWO_32
    ensures Keyed(dot, code) == Wrapped(Spelled(dot, code, dot))
    decreases |code|
  {
    if code != [] {
      KeyedWrapped(dot, code[1..]);
      var head := Spelled(dot, code, dot)[..2];
      WrappedConcat(head, Spelled(dot, code[1..], dot));
      assert Wrapped(head) == [Mark(dot, code[0]), Symbol(false, dot)];
    }
  }

  lemma WrappedConcat(a: seq<Symbol>, b: seq<Symbol>)
    ensures Wrapped(a + b) == Wrapped(a) + Wrapped(b)
  {
    hide U32;
  }

  /** Patching gaps as the text goes by gives the ideal timing of the sent text, in 32-bit durations. */
  lemma {:induction false} EmittedIsIdeal(dot: nat, text: string)
    requires dot < TWO_32
    ensures Canonical(Sendable(text)) && Emitted(dot, text) == Wrapped(Ideal(dot, Sendable(text)))
    decreases |text|
  {
    SendableCanonical(text);
    IdealOfNothing(dot);
    if text != [] {
      var before, ch := text[..|text| - 1], text[|text| - 1];
      var c, sent := ToUpper(ch), Sendable(before);
      assert text == before + [ch];
      EmittedIsIdeal(dot, before);
      SendableMore(before, ch);
      IdealAlternates(dot, sent);
      hide Sendable;
      hide Canonical;
      hide Ideal;
      hide Alternates;
      hide Stretched;
      hide U32;
      hide Morse;
      assert sent + [] == sent;
      if c == ' ' {
        LengthenedWrapped(Ideal(dot, sent), 6 * dot);
        if sent == [] {
          StretchedNothing(6 * dot);
        } else {
          IdealMore(dot, sent, c);
        }
      } else if Supported(c) {
        LengthenedWrapped(Ideal(dot, sent), 2 * dot);
        IdealMore(dot, sent, c);
        KeyedWrapped(dot, Morse(c).value);
        WrappedConcat(Stretched(Ideal(dot, sent), 2 * dot), Spelled(dot, Morse(c).value, dot));
      }
    }
  }

  lemma StretchedNothing(extra: nat)
    ensures Stretched([], extra) == []
  {
  }

  lemma {:induction false} AlternatesWrapped(symbols: seq<Symbol>)
    requires Alternates(symbols)
    ensures Alternates(Wrapped(symbols))
    decreases |symbols|
  {
    if symbols != [] {
      AlternatesWrapped(symbols[2..]);
      assert Wrapped(symbols)[2..] == Wrapped(symbols[2..]);
    }
  }

  /** The symbols strictly alternate, starting keyed and ending unkeyed. */
  lemma EmittedAlternates(dot: nat, text: string)
    requires dot < TWO_32
    ensures Alternates(Emitted(dot, text))
    ensures forall i :: 0 <= i < |Emitted(dot, text)| ==> Emitted(dot, text)[i].on == (i % 2 == 0)
  {
    EmittedIsIdeal(dot, text);
    IdealAlternates(dot, Sendable(text));
    AlternatesWrapped(Ideal(dot, Sendable(text)));
    forall i | 0 <= i < |Emitted(dot, text)| ensures Emitted(dot, text)[i].on == (i % 2 == 0) {
      AlternatesAt(Emitted(dot, text), i);
    }
  }

  // -------------------------------------------------------------- the receiver

  /** The Morse tree: a code's place is its elements as binary digits, dash for one, after a leading one. */
  const LETTER_TREE: string := "##ETIANMSURWDKGOHVF#L#PJBXCYZQ##"

  const DIGIT_TREE: string := "54#3###2#######16#######7###8#90"

  function TreeAt(n: nat): char {
    if n < 32 then LETTER_TREE[n] else if n < 64 then DIGIT_TREE[n - 32] else '#'
  }

  function Branch(e: char): nat {
    if e == '-' then 1 else 0
  }

  function TreePlace(code: string): (n: nat)
    ensures n >= 1
  {
    if code == [] then 1 else 2 * TreePlace(code[..|code| - 1]) + Branch(code[|code| - 1])
  }

  predicate DotsAndDashes(code: string) {
    forall i :: 0 <= i < |code| ==> code[i] == '.' || code[i] == '-'
  }

  function LetterOf(code: string): Option<char> {
    var n := TreePlace(code);
    if TreeAt(n) != '#' then Some(TreeAt(n)) else None
  }

  /** Spaces told by a gap of `dots` dots after a whole character. */
  function SpacesIn(dots: nat, final: bool): Option<nat> {
    var first := if final then 1 else 3;
    if dots >= first && (dots - first) % 6 == 0 then Some((dots - first) / 6) else None
  }

  /** The gap in dots. */
  function Dots(duration: nat, dot: nat): Option<nat>
    requires dot > 0
  {
    if duration % dot == 0 then Some(duration / dot) else None
  }

  function Element(dot: nat, mark: Symbol): Option<char> {
    if !mark.on then None
    else if mark.duration == dot then Some('.')
    else if mark.duration == 3 * dot then Some('-')
    else None
  }

  function Joined(head: string, tail: Option<string>): Option<string> {
    if tail.None? then None else Some(head + tail.value)
  }

  /** The text that a receiver reads, having already read the elements `code` of a character. */
  function Decoded(dot: nat, symbols: seq<Symbol>, code: string): Option<string>
    requires dot > 0
    decreases |symbols|
  {
    if symbols == [] then (if code == [] then Some([]) else None)
    else if |symbols| < 2 || symbols[1].on || Element(dot, symbols[0]).None? then None
    else if Dots(symbols[1].duration, dot).None? then None
    else
      var longer := code + [Element(dot, symbols[0]).value];
      var dots, rest := Dots(symbols[1].duration, dot).value, symbols[2..];
      if rest != [] && dots == 1 then Decoded(dot, rest, longer)
      else
        var letter, spaces := LetterOf(longer), SpacesIn(dots, rest == []);
        if letter.None? || spaces.None? then None
        else Joined([letter.value] + Repeat(' ', spaces.value), Decoded(dot, rest, []))
  }

  lemma {:induction false} TreePlaceInjective(a: string, b: string)
    requires DotsAndDashes(a) && DotsAndDashes(b) && TreePlace(a) == TreePlace(b)
    ensures a == b
    decreases |a|
  {
    if a != [] && b != [] {
      TreePlaceInjective(a[..|a| - 1], b[..|b| - 1]);
      assert a == a[..|a| - 1] + [a[|a| - 1]] && b == b[..|b| - 1] + [b[|b| - 1]];
    } else {
      TreePlaceLarger(a);
      TreePlaceLarger(b);
    }
  }

  lemma TreePlaceLarger(code: string)
    ensures code != [] ==> TreePlace(code) >= 2
  {
  }

  predicate InTree(c: char) {
    Supported(c) && TreeAt(TreePlace(Morse(c).value)) == c
  }

  /** The place of a code of up to five elements, written out. */
  lemma TreePlaceOf(code: string)
    requires 1 <= |code| <= 5
    ensures TreePlace(code) ==
      match |code|
      case 1 => 2 + Branch(code[0])
      case 2 => 4 + 2 * Branch(code[0]) + Branch(code[1])
      case 3 => 8 + 4 * Branch(code[0]) + 2 * Branch(code[1]) + Branch(code[2])
      case 4 => 16 + 8 * Branch(code[0]) + 4 * Branch(code[1]) + 2 * Branch(code[2]) + Branch(code[3])
      case _ =>
        32 + 16 * Branch(code[0]) + 8 * Branch(code[1]) + 4 * Branch(code[2]) + 2 * Branch(code[3]) + Branch(code[4])
  {
    var c1 := code[..|code| - 1];
    if |code| > 1 {
      TreePlaceOf(c1);
    }
  }

  const LETTER_PLACES: seq<nat> :=
    [5, 24, 26, 12, 2, 18, 14, 16, 4, 23, 13, 20, 7, 6, 15, 22, 29, 10, 8, 3, 9, 17, 11, 25, 27, 28]

  const DIGIT_PLACES: seq<nat> := [63, 47, 39, 35, 33, 32, 48, 56, 60, 62]

  lemma LetterPlaces(i: nat)
    requires i < 26
    ensures TreePlace(LETTER_CODES[i]) == LETTER_PLACES[i]
  {
    assert 1 <= |LETTER_CODES[i]| <= 5;
    TreePlaceOf(LETTER_CODES[i]);
    hide TreePlace;
  }

  lemma DigitPlaces(i: nat)
    requires i < 10
    ensures TreePlace(DIGIT_CODES[i]) == DIGIT_PLACES[i]
  {
    assert |DIGIT_CODES[i]| == 5;
    TreePlaceOf(DIGIT_CODES[i]);
    hide TreePlace;
  }

  lemma TreeAtLetters(i: nat)
    requires i < 26
    ensures TreeAt(LETTER_PLACES[i]) == (('A' as int) + i) as char
  {
  }

  lemma TreeAtDigits(i: nat)
    requires i < 10
    ensures TreeAt(DIGIT_PLACES[i]) == (('0' as int) + i) as char
  {
  }

  lemma LetterEntries(n: nat)
    requires n < 32 && LETTER_TREE[n] != '#'
    ensures IsUpper(LETTER_TREE[n])
  {
  }

  lemma LetterEntry(n: nat)
    requires n < 32 && IsUpper(LETTER_TREE[n])
    ensures LETTER_PLACES[Letter(LETTER_TREE[n])] == n
  {
  }

  lemma DigitEntries(n: nat)
    requires n < 32 && DIGIT_TREE[n] != '#'
    ensures IsDigit(DIGIT_TREE[n])
  {
  }

  lemma DigitEntry(n: nat)
    requires n < 32 && IsDigit(DIGIT_TREE[n])
    ensures DIGIT_PLACES[Digit(DIGIT_TREE[n])] == n + 32
  {
  }

  lemma LettersInTree(c: char)
    requires Supported(c)
    ensures InTree(c)
  {
    if IsUpper(c) {
      LetterPlaces(Letter(c));
      TreeAtLetters(Letter(c));
    } else {
      DigitPlaces(Digit(c));
      TreeAtDigits(Digit(c));
    }
  }

  lemma TreeHasLetters(n: nat)
    requires TreeAt(n) != '#'
    ensures Supported(TreeAt(n)) && TreePlace(Morse(TreeAt(n)).value) == n
  {
    if n < 32 {
      LetterEntries(n);
      LetterEntry(n);
      LetterPlaces(Letter(TreeAt(n)));
    } else {
      DigitEntries(n - 32);
      DigitEntry(n - 32);
      DigitPlaces(Digit(TreeAt(n)));
    }
  }

  // -------------------------------------------- the receiver reads the ideal

  /** Mark durations tell dots from dashes. */
  lemma ElementIs(dot: nat, e: char, mark: Symbol)
    requires dot > 0
    ensures mark == Symbol(true, if e == '.' then dot else 3 * dot) && (e == '.' || e == '-') <==>
            Element(dot, mark) == Some(e)
  {
  }

  lemma DotsIs(dot: nat, dots: nat, duration: nat)
    requires dot > 0
    ensures duration == dots * dot <==> Dots(duration, dot) == Some(dots)
  {
    if duration == dots * dot {
      DivModUnique(duration, dots, 0, dot);
    }
    DivisionIdentity(duration, dot);
  }

  lemma SpacesIs(dots: nat, final: bool, k: nat)
    ensures dots == GapDots(k, final) <==> SpacesIn(dots, final) == Some(k)
  {
  }

  /** A gap is told by its length in dots, and one dot is a gap inside a character unless the text ends. */
  lemma GapIs(dot: nat, duration: nat, final: bool, k: nat)
    requires dot > 0
    ensures duration == Gap(dot, k, final) <==> Dots(duration, dot) == Some(GapDots(k, final))
  {
    DotsIs(dot, GapDots(k, final), duration);
  }

  lemma LetterIs(code: string, c: char)
    requires DotsAndDashes(code)
    ensures LetterOf(code) == Some(c) <==> Supported(c) && Morse(c) == Some(code)
  {
    if LetterOf(code) == Some(c) {
      TreeHasLetters(TreePlace(code));
      CodesNotEmpty(c);
      TreePlaceInjective(code, Morse(c).value);
    }
    if Supported(c) && Morse(c) == Some(code) {
      LettersInTree(c);
      NoFiller(c);
    }
  }

  lemma NoFiller(c: char)
    requires Supported(c)
    ensures c != '#' && c != ' '
  {
  }

  /** The first pair of symbols of a text when `code` is still to be keyed. */
  lemma SpelledFirst(dot: nat, code: string, gap: nat)
    requires code != []
    ensures Spelled(dot, code, gap) ==
      [Symbol(true, if code[0] == '.' then dot else 3 * dot), Symbol(false, if |code| == 1 then gap else dot)] +
      Spelled(dot, code[1..], gap)
  {
  }

  /** What remains of the ideal timing of a text when the first `read` elements have been read. */
  function Remaining(dot: nat, text: string, read: nat): seq<Symbol>
    requires Canonical(text) && text != [] && Supported(text[0]) && read <= |Morse(text[0]).value|
  {
    var k := LeadingSpaces(text[1..]);
    var rest := text[1 + k..];
    CanonicalRest(text);
    Spelled(dot, Morse(text[0]).value[read..], Gap(dot, k, rest == [])) + Ideal(dot, rest)
  }

  /** Removing one element from what remains. */
  lemma RemainingFirst(dot: nat, text: string, read: nat)
    requires Canonical(text) && text != [] && Supported(text[0]) && read < |Morse(text[0]).value|
    ensures var code, k := Morse(text[0]).value, LeadingSpaces(text[1..]);
            var rest := text[1 + k..];
            Remaining(dot, text, read) ==
              [Symbol(true, if code[read] == '.' then dot else 3 * dot),
               Symbol(false, if read + 1 == |code| then Gap(dot, k, rest == []) else dot)] +
              Remaining(dot, text, read + 1)
  {
    hide Ideal;
    hide Spelled;
    hide Gap;
    hide Morse;
    hide Canonical;
    hide LeadingSpaces;
    var code, k := Morse(text[0]).value, LeadingSpaces(text[1..]);
    CanonicalRest(text);
    SpelledFirst(dot, code[read..], Gap(dot, k, text[1 + k..] == []));
    assert code[read..][1..] == code[read + 1..];
  }

  lemma RemainingEnds(dot: nat, text: string)
    requires Canonical(text) && text != [] && Supported(text[0])
    ensures Remaining(dot, text, 0) == Ideal(dot, text)
    ensures var k := LeadingSpaces(text[1..]);
            Canonical(text[1 + k..]) && Remaining(dot, text, |Morse(text[0]).value|) == Ideal(dot, text[1 + k..])
  {
    var k := LeadingSpaces(text[1..]);
    var code, rest := Morse(text[0]).value, text[1 + k..];
    IdealFirst(dot, text);
    assert code[0..] == code && code[|code|..] == [];
    assert Spelled(dot, [], Gap(dot, k, rest == [])) + Ideal(dot, rest) == Ideal(dot, rest);
  }

  lemma RemainingNotEmpty(dot: nat, text: string, read: nat)
    requires Canonical(text) && text != [] && Supported(text[0]) && read < |Morse(text[0]).value|
    ensures Remaining(dot, text, read) != []
  {
    RemainingFirst(dot, text, read);
    hide Remaining;
  }

  /** One step of the receiver on a keyed pair. */
  lemma DecodedPair(dot: nat, mark: Symbol, gap: Symbol, rest: seq<Symbol>, code: string, e: char, dots: nat)
    requires dot > 0 && Element(dot, mark) == Some(e) && !gap.on && Dots(gap.duration, dot) == Some(dots)
    ensures Decoded(dot, [mark, gap] + rest, code) ==
      if rest != [] && dots == 1 then Decoded(dot, rest, code + [e])
      else if LetterOf(code + [e]).None? || SpacesIn(dots, rest == []).None? then None
      else Joined([LetterOf(code + [e]).value] + Repeat(' ', SpacesIn(dots, rest == []).value), Decoded(dot, rest, []))
  {
    var symbols := [mark, gap] + rest;
    assert symbols[2..] == rest;
    hide Element;
    hide Dots;
    hide LetterOf;
    hide SpacesIn;
  }

  lemma TextParts(text: string)
    requires text != []
    ensures var k := LeadingSpaces(text[1..]);
            text == [text[0]] + Repeat(' ', k) + text[1 + k..]
  {
    var k := LeadingSpaces(text[1..]);
    assert text[1..] == text[1..][..k] + text[1 + k..];
  }

  /** The receiver reads the ideal timing. */
  lemma {:induction false} IdealRead(dot: nat, text: string, read: nat)
    requires dot > 0 && Canonical(text) && text != [] && Supported(text[0]) && read < |Morse(text[0]).value|
    ensures Decoded(dot, Remaining(dot, text, read), Morse(text[0]).value[..read]) == Some(text)
    decreases |text|, |Morse(text[0]).value| - read
  {
    hide Remaining;
    hide Decoded;
    hide Ideal;
    hide Morse;
    hide Gap;
    hide Dots;
    hide Element;
    hide LetterOf;
    hide SpacesIn;
    var code, k := Morse(text[0]).value, LeadingSpaces(text[1..]);
    var rest, e, next := text[1 + k..], code[read], Remaining(dot, text, read + 1);
    var mark := Symbol(true, if e == '.' then dot else 3 * dot);
    CodesNotEmpty(text[0]);
    RemainingFirst(dot, text, read);
    ElementIs(dot, e, mark);
    assert code[..read] + [e] == code[..read + 1];
    if read + 1 < |code| {
      DotsIs(dot, 1, dot);
      RemainingNotEmpty(dot, text, read + 1);
      IdealRead(dot, text, read + 1);
      DecodedPair(dot, mark, Symbol(false, dot), next, code[..read], e, 1);
    } else {
      assert code[..read + 1] == code;
      RemainingEnds(dot, text);
      GapIs(dot, Gap(dot, k, rest == []), rest == [], k);
      SpacesIs(GapDots(k, rest == []), rest == [], k);
      LetterIs(code, text[0]);
      CanonicalRest(text);
      WholeRead(dot, rest);
      DecodedPair(dot, mark, Symbol(false, Gap(dot, k, rest == [])), next, code[..read], e, GapDots(k, rest == []));
      TextParts(text);
    }
  }

  lemma WholeRead(dot: nat, text: string)
    requires dot > 0 && Canonical(text)
    ensures Decoded(dot, Ideal(dot, text), []) == Some(text)
    ensures text == [] <==> Ideal(dot, text) == []
    decreases |text|, 6
  {
    if text == [] {
      IdealOfNothing(dot);
    } else {
      CanonicalRest(text);
      CodesNotEmpty(text[0]);
      RemainingEnds(dot, text);
      IdealNotEmpty(dot, text);
      assert Morse(text[0]).value[..0] == [];
      IdealRead(dot, text, 0);
    }
  }

  /** What the receiver can have read: the text of an ideal timing, from the element it had got to. */
  predicate ReadFrom(dot: nat, symbols: seq<Symbol>, code: string, text: string) {
    if symbols == [] then code == [] && text == []
    else
      Canonical(text) && text != [] && Supported(text[0]) && |code| < |Morse(text[0]).value| &&
      code == Morse(text[0]).value[..|code|] && symbols == Remaining(dot, text, |code|)
  }

  /** When the receiver goes on in the same character, so does the text. */
  lemma ReadFromInside(dot: nat, mark: Symbol, rest: seq<Symbol>, code: string, e: char, text: string)
    requires dot > 0 && rest != [] && Element(dot, mark) == Some(e) && ReadFrom(dot, rest, code + [e], text)
    ensures ReadFrom(dot, [mark, Symbol(false, dot)] + rest, code, text)
  {
    hide Morse;
    hide Remaining;
    hide Canonical;
    hide LeadingSpaces;
    hide Element;
    hide Gap;
    var whole := Morse(text[0]).value;
    assert |code + [e]| == |code| + 1 && whole[..|code| + 1] == code + [e];
    assert whole[|code|] == whole[..|code| + 1][|code|] == e;
    assert whole[..|code|] == whole[..|code| + 1][..|code|] == code;
    ElementIs(dot, e, mark);
    RemainingFirst(dot, text, |code|);
  }

  lemma {:induction false} LeadingSpacesOf(k: nat, rest: string)
    requires rest != [] ==> rest[0] != ' '
    ensures LeadingSpaces(Repeat(' ', k) + rest) == k
    decreases k
  {
    var s := Repeat(' ', k) + rest;
    if k == 0 {
      assert s == rest;
    } else {
      assert s[1..] == Repeat(' ', k - 1) + rest;
      LeadingSpacesOf(k - 1, rest);
    }
  }

  lemma CanonicalJoined(c: char, k: nat, tail: string)
    requires Supported(c) && Canonical(tail)
    ensures var text := [c] + Repeat(' ', k) + tail;
            Canonical(text) && LeadingSpaces(text[1..]) == k && text[1 + k..] == tail
  {
    var text := [c] + Repeat(' ', k) + tail;
    NoFiller(c);
    assert text[1..] == Repeat(' ', k) + tail;
    LeadingSpacesOf(k, tail);
    hide Morse;
  }

  /** When the receiver completes a character and its spaces, the text starts with them. */
  lemma ReadFromLast(dot: nat, mark: Symbol, duration: nat, rest: seq<Symbol>, code: string, e: char, c: char,
                     k: nat, tail: string)
    requires dot > 0 && Element(dot, mark) == Some(e) && Supported(c) && Morse(c) == Some(code + [e])
    requires duration == Gap(dot, k, rest == []) && ReadFrom(dot, rest, [], tail)
    ensures ReadFrom(dot, [mark, Symbol(false, duration)] + rest, code, [c] + Repeat(' ', k) + tail)
  {
    hide Morse;
    hide Gap;
    hide Ideal;
    hide Remaining;
    hide Element;
    hide LeadingSpaces;
    var text := [c] + Repeat(' ', k) + tail;
    TailIdeal(dot, rest, tail);
    assert tail == [] <==> rest == [];
    CanonicalJoined(c, k, tail);
    hide Canonical;
    ElementIs(dot, e, mark);
    var whole := Morse(c).value;
    assert whole[|code|] == e && whole[..|code|] == code;
    RemainingFirst(dot, text, |code|);
    RemainingEnds(dot, text);
  }

  lemma TailIdeal(dot: nat, rest: seq<Symbol>, tail: string)
    requires ReadFrom(dot, rest, [], tail)
    ensures Canonical(tail) && Ideal(dot, tail) == rest
  {
    if rest == [] {
      IdealOfNothing(dot);
    } else {
      RemainingEnds(dot, tail);
    }
  }

  lemma OneDot(dot: nat, duration: nat)
    requires dot > 0
    ensures duration == dot <==> Dots(duration, dot) == Some(1)
  {
    DotsIs(dot, 1, duration);
  }

  lemma MoreElements(code: string, e: Option<char>)
    requires DotsAndDashes(code) && (e.Some? ==> e.value == '.' || e.value == '-')
    ensures DotsAndDashes([])
    ensures e.Some? ==> DotsAndDashes(code + [e.value])
  {
  }

  lemma DecodedNeeds(dot: nat, symbols: seq<Symbol>, code: string)
    requires dot > 0 && symbols != [] && Decoded(dot, symbols, code).Some?
    ensures |symbols| >= 2 && !symbols[1].on && Element(dot, symbols[0]).Some? && Dots(symbols[1].duration, dot).Some?
    ensures Element(dot, symbols[0]).value == '.' || Element(dot, symbols[0]).value == '-'
  {
  }

  /** The receiver reads nothing but ideal timings. */
  lemma {:induction false} OnlyIdealRead(dot: nat, symbols: seq<Symbol>, code: string)
    requires dot > 0 && DotsAndDashes(code) && Decoded(dot, symbols, code).Some?
    ensures ReadFrom(dot, symbols, code, Decoded(dot, symbols, code).value)
    decreases |symbols|
  {
    if symbols != [] {
      var mark, gap, rest := symbols[0], symbols[1], symbols[2..];
      DecodedNeeds(dot, symbols, code);
      hide Decoded;
      hide Element;
      hide Dots;
      hide LetterOf;
      hide SpacesIn;
      hide ReadFrom;
      hide Gap;
      hide GapDots;
      hide Morse;
      hide DotsAndDashes;
      MoreElements(code, Element(dot, mark));
      var e, dots := Element(dot, mark).value, Dots(gap.duration, dot).value;
      ElementIs(dot, e, mark);
      assert gap == Symbol(false, gap.duration);
      assert symbols == [mark, gap] + rest;
      OneDot(dot, gap.duration);
      DecodedPair(dot, mark, gap, rest, code, e, dots);
      if rest != [] && dots == 1 {
        OnlyIdealRead(dot, rest, code + [e]);
        ReadFromInside(dot, mark, rest, code, e, Decoded(dot, symbols, code).value);
      } else {
        var c, k := LetterOf(code + [e]).value, SpacesIn(dots, rest == []).value;
        OnlyIdealRead(dot, rest, []);
        LetterIs(code + [e], c);
        SpacesIs(dots, rest == [], k);
        GapIs(dot, gap.duration, rest == [], k);
        ReadFromLast(dot, mark, gap.duration, rest, code, e, c, k, Decoded(dot, rest, []).value);
      }
    }
  }

  /** What the receiver reads as a text is that text's ideal timing, and nothing else. */
  lemma ReadExactly(dot: nat, symbols: seq<Symbol>, text: string)
    requires dot > 0
    ensures Decoded(dot, symbols, []) == Some(text) <==> Canonical(text) && symbols == Ideal(dot, text)
  {
    if Canonical(text) {
      WholeRead(dot, text);
    }
    if Decoded(dot, symbols, []) == Some(text) {
      OnlyIdealRead(dot, symbols, []);
      TailIdeal(dot, symbols, text);
    }
  }

  // --------------------------------------------------------- 32-bit durations

  const MAX_DOT: nat := 1200000

  /** The longest gap of a text, in dots. */
  function LongestGap(text: string): nat
    requires Canonical(text)
    decreases |text|
  {
    if text == [] then 0
    else
      var k := LeadingSpaces(text[1..]);
      CanonicalRest(text);
      var rest := text[1 + k..];
      if GapDots(k, rest == []) > LongestGap(rest) then GapDots(k, rest == []) else LongestGap(rest)
  }

  predicate Fits(symbols: seq<Symbol>) {
    forall i :: 0 <= i < |symbols| ==> symbols[i].duration < TWO_32
  }

  lemma FitsConcat(a: seq<Symbol>, b: seq<Symbol>)
    ensures Fits(a + b) <==> Fits(a) && Fits(b)
  {
    assert forall i :: 0 <= i < |a| ==> (a + b)[i] == a[i];
    assert forall i :: 0 <= i < |b| ==> (a + b)[|a| + i] == b[i];
  }

  lemma {:induction false} SpelledFits(dot: nat, code: string, gap: nat)
    requires dot <= MAX_DOT && code != []
    ensures Fits(Spelled(dot, code, gap)) <==> gap < TWO_32
    decreases |code|
  {
    SpelledFirst(dot, code, gap);
    var head := Spelled(dot, code, gap)[..2];
    assert Spelled(dot, code, gap) == head + Spelled(dot, code[1..], gap);
    FitsConcat(head, Spelled(dot, code[1..], gap));
    assert head[1] == Symbol(false, if |code| == 1 then gap else dot);
    if |code| > 1 {
      SpelledFits(dot, code[1..], gap);
    }
  }

  lemma LongerGap(a: nat, b: nat, dot: nat)
    ensures (if a > b then a else b) * dot < TWO_32 <==> a * dot < TWO_32 && b * dot < TWO_32
  {
    if a > b {
      MulMono(b, a, dot);
    } else {
      MulMono(a, b, dot);
    }
  }

  /** All durations fit in 32 bits exactly when the longest gap does. */
  lemma {:induction false} IdealFits(dot: nat, text: string)
    requires dot <= MAX_DOT && Canonical(text)
    ensures Fits(Ideal(dot, text)) <==> LongestGap(text) * dot < TWO_32
    decreases |text|
  {
    hide Ideal;
    hide Spelled;
    hide Morse;
    if text == [] {
      IdealOfNothing(dot);
    } else {
      var k := LeadingSpaces(text[1..]);
      var rest, code := text[1 + k..], Morse(text[0]).value;
      IdealFirst(dot, text);
      CodesNotEmpty(text[0]);
      SpelledFits(dot, code, Gap(dot, k, rest == []));
      FitsConcat(Spelled(dot, code, Gap(dot, k, rest == [])), Ideal(dot, rest));
      IdealFits(dot, rest);
      LongerGap(GapDots(k, rest == []), LongestGap(rest), dot);
    }
  }

  lemma WrappedSame(symbols: seq<Symbol>)
    ensures Wrapped(symbols) == symbols <==> Fits(symbols)
  {
    if Wrapped(symbols) == symbols {
      forall i | 0 <= i < |symbols| ensures symbols[i].duration < TWO_32 {
        assert Wrapped(symbols)[i] == symbols[i];
      }
    }
    if Fits(symbols) {
      forall i | 0 <= i < |symbols| ensures Wrapped(symbols)[i] == symbols[i] {
        assert symbols[i].duration < TWO_32;
      }
    }
  }

  function DotFor(wpm: nat): (dot: nat)
    requires wpm > 0
    ensures dot <= MAX_DOT
    ensures dot * wpm <= 1200000 < (dot + 1) * wpm
  {
    DivisionIdentity(1200000, wpm);
    MulMono(1, wpm, 1200001);
    DivLess(1200000, wpm, 1200001);
    1200000 / wpm
  }

  /** At any speed with a dot of a microsecond or more, a receiver reads back the sent text exactly when the
      longest gap fits in 32 bits. */
  lemma RoundTrip(wpm: nat, text: string)
    requires 0 < wpm <= 1200000
    ensures DotFor(wpm) > 0 && Canonical(Sendable(text))
    ensures Decoded(DotFor(wpm), Emitted(DotFor(wpm), text), []) == Some(Sendable(text)) <==>
            LongestGap(Sendable(text)) * DotFor(wpm) < TWO_32
  {
    DotPositive(wpm);
    hide DotFor;
    var dot := DotFor(wpm);
    EmittedIsIdeal(dot, text);
    ReadExactly(dot, Emitted(dot, text), Sendable(text));
    WrappedSame(Ideal(dot, Sendable(text)));
    IdealFits(dot, Sendable(text));
  }

  lemma {:induction false} CanonicalSent(text: string)
    requires Canonical(text)
    ensures Sendable(text) == text
    decreases |text|
  {
    if text != [] {
      var before, c := text[..|text| - 1], text[|text| - 1];
      assert text == before + [c];
      CanonicalSent(before);
      SendableMore(before, c);
      assert c == ' ' || Supported(c);
      assert ToUpper(c) == c;
      hide Sendable;
    }
  }

  /** Two letters with spaces between. */
  function Apart(spaces: nat): string {
    ['E'] + (Repeat(' ', spaces) + ['E'])
  }

  lemma ApartGap(spaces: nat)
    ensures Canonical(Apart(spaces)) && LongestGap(Apart(spaces)) == 6 * spaces + 3
  {
    var text := Apart(spaces);
    LeadingSpacesOf(spaces, ['E']);
    assert text[1..] == Repeat(' ', spaces) + ['E'];
    assert text[1 + spaces..] == ['E'];
    LeadingSpacesOfNothing();
    assert ['E'][1..] == [] && ['E'][1 + 0..] == [];
    assert LongestGap(['E']) == 1;
  }

  /** How many spaces between two letters a speed allows. */
  lemma SpacesFit(wpm: nat, spaces: nat)
    requires 0 < wpm <= 1200000
    ensures DotFor(wpm) > 0
    ensures Decoded(DotFor(wpm), Emitted(DotFor(wpm), Apart(spaces)), []) == Some(Apart(spaces)) <==>
            (6 * spaces + 3) * DotFor(wpm) < TWO_32
  {
    hide Decoded;
    hide Emitted;
    hide Sendable;
    ApartGap(spaces);
    CanonicalSent(Apart(spaces));
    RoundTrip(wpm, Apart(spaces));
  }

  /** At one word a minute 596 spaces are read back and 597 are not. */
  lemma LongGapLost()
    ensures DotFor(1) == MAX_DOT
    ensures Decoded(MAX_DOT, Emitted(MAX_DOT, Apart(596)), []) == Some(Apart(596))
    ensures Decoded(MAX_DOT, Emitted(MAX_DOT, Apart(597)), []) != Some(Apart(597))
  {
    hide Decoded;
    hide Emitted;
    hide Apart;
    SpacesFit(1, 596);
    SpacesFit(1, 597);
  }

  lemma DotPositive(wpm: nat)
    requires 0 < wpm <= 1200000
    ensures DotFor(wpm) > 0
  {
    DivisionIdentity(1200000, wpm);
  }

  /** Faster than that, a dot lasts no time: A and N sound the same. */
  lemma TooFastCollides(wpm: nat)
    requires wpm > 1200000
    ensures DotFor(wpm) == 0 && Emitted(DotFor(wpm), "A") == Emitted(DotFor(wpm), "N")
  {
    DivLess(1200000, wpm, 1);
    EmittedIsIdeal(0, "A");
    EmittedIsIdeal(0, "N");
    OneLetter(0, 'A');
    OneLetter(0, 'N');
    var a, n := Morse('A').value, Morse('N').value;
    assert a == ".-" && n == "-.";
    SpelledFirst(0, a, 0);
    SpelledFirst(0, n, 0);
    SpelledFirst(0, a[1..], 0);
    SpelledFirst(0, n[1..], 0);
    assert a[1..][1..] == n[1..][1..] == [];
  }

  lemma OneLetter(dot: nat, c: char)
    requires IsUpper(c)
    ensures Sendable([c]) == [c] && Canonical([c]) && Ideal(dot, [c]) == Spelled(dot, Morse(c).value, dot)
  {
    assert [c] == [] + [c];
    SendableMore([], c);
    assert Sendable([]) == [];
    IdealAlone(dot, c);
  }

  // ---------------------------------------------------------------- the loops

  function CodeLength(ch: char): nat {
    if Supported(ToUpper(ch)) then |Morse(ToUpper(ch)).value| else 0
  }

  lemma EmittedMore(dot: nat, text: string, i: nat)
    requires i < |text|
    ensures Emitted(dot, text[..i + 1]) == Sent(dot, Emitted(dot, text[..i]), text[i])
    ensures |Emitted(dot, text[..i + 1])| == |Emitted(dot, text[..i])| + 2 * CodeLength(text[i])
  {
    assert text[..i + 1][..i] == text[..i];
    NotASpace(ToUpper(text[i]));
  }

  lemma NotASpace(c: char)
    ensures Supported(c) ==> c != ' '
  {
  }

  lemma {:induction false} EmittedGrows(dot: nat, text: string, i: nat)
    requires i <= |text|
    ensures |Emitted(dot, text[..i])| <= |Emitted(dot, text)|
    decreases |text| - i
  {
    if i < |text| {
      EmittedMore(dot, text, i);
      EmittedGrows(dot, text, i + 1);
    } else {
      assert text[..i] == text;
    }
  }

  lemma {:induction false} KeyedMore(dot: nat, code: string, j: nat)
    requires j < |code|
    ensures Keyed(dot, code[..j + 1]) == Keyed(dot, code[..j]) + [Mark(dot, code[j]), Symbol(false, dot)]
    decreases j
  {
    hide Mark;
    if j == 0 {
      assert code[..1] == [code[0]] && code[..0] == [] && [code[0]][1..] == [];
    } else {
      assert code[..j + 1][1..] == code[1..][..j] && code[..j][1..] == code[1..][..j - 1];
      KeyedMore(dot, code[1..], j - 1);
    }
  }

  /** The patch of the last gap. */
  method Lengthen(symbols: array<Symbol>, symIdx: nat, extra: nat)
    requires symIdx <= symbols.Length
    modifies symbols
    ensures symbols[..symIdx] == Lengthened(old(symbols[..symIdx]), extra)
    ensures symbols[symIdx..] == old(symbols[symIdx..])
  {
    if symIdx > 0 && !symbols[symIdx - 1].on {
      symbols[symIdx - 1] := Symbol(false, U32(symbols[symIdx - 1].duration + extra));
    }
  }

  /** The marks and gaps of one character. */
  method Key(symbols: array<Symbol>, start: nat, dot: nat, code: string) returns (symIdx: nat)
    requires start + 2 * |code| <= symbols.Length
    modifies symbols
    ensures symIdx == start + 2 * |code|
    ensures symbols[..symIdx] == old(symbols[..start]) + Keyed(dot, code)
  {
    symIdx := start;
    assert old(symbols[..start]) + [] == old(symbols[..start]);
    for j := 0 to |code|
      invariant symIdx == start + 2 * j
      invariant symbols[..symIdx] == old(symbols[..start]) + Keyed(dot, code[..j])
    {
      KeyedMore(dot, code, j);
      ghost var before := symbols[..symIdx];
      symbols[symIdx] := Symbol(true, if code[j] == '.' then dot else U32(3 * dot));
      symIdx := symIdx + 1;
      symbols[symIdx] := Symbol(false, dot);
      symIdx := symIdx + 1;
      assert symbols[..symIdx] == before + [Mark(dot, code[j]), Symbol(false, dot)];
    }
    assert code[..|code|] == code;
  }

  /** The first pass counts the symbols exactly; the second fills the array and patches gaps as it goes. */
  method Generate(text: string, wpm: nat) returns (symbols: array<Symbol>, total: nat)
    requires wpm > 0
    ensures fresh(symbols) && total == symbols.Length
    ensures symbols[..] == Emitted(DotFor(wpm), text)
  {
    hide Emitted;
    hide Keyed;
    hide Lengthened;
    var dot := 1200000 / wpm;
    assert dot == DotFor(wpm);
    hide DotFor;
    var capacity := 0;
    EmittedNothing(dot);
    assert text[..0] == [] && text[..|text|] == text;
    for i := 0 to |text|
      invariant capacity == |Emitted(dot, text[..i])|
    {
      EmittedMore(dot, text, i);
      var c := ToUpper(text[i]);
      if c != ' ' && Morse(c).Some? {
        capacity := capacity + |Morse(c).value| * 2;
      }
    }
    symbols := new Symbol[capacity](_ => Symbol(false, 0));
    total := 0;
    for i := 0 to |text|
      invariant total <= symbols.Length == |Emitted(dot, text)|
      invariant symbols[..total] == Emitted(dot, text[..i])
    {
      EmittedMore(dot, text, i);
      EmittedGrows(dot, text, i + 1);
      var c := ToUpper(text[i]);
      if c == ' ' {
        Lengthen(symbols, total, U32(6 * dot));
      } else {
        var code := Morse(c);
        if code.Some? {
          Lengthen(symbols, total, U32(2 * dot));
          total := Key(symbols, total, dot, code.value);
        }
      }
    }
    assert symbols[..total] == symbols[..];
  }

  lemma EmittedNothing(dot: nat)
    ensures Emitted(dot, []) == []
  {
  }
}
