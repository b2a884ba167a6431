/** What quoting escapes, and how (function quote of www/js/json2.js). */
module JsonQuoting {
  import opened Wrappers
  import opened JsonText
  import opened JsonPrinter
  import opened JsonRoundTrip
  import opened JsonLayout

  // ----- The reference: ranges of hidden characters, and tables of letters.

  // Control characters, and those that are not shown or that engines may change or drop.
  const HIDDEN: seq<(Unit, Unit)> := [
    (0, 0x1f), (0x7f, 0x9f), (0xad, 0xad), (0x600, 0x604), (0x70f, 0x70f), (0x17b4, 0x17b5),
    (0x200c, 0x200f), (0x2028, 0x202f), (0x2060, 0x206f), (0xfeff, 0xfeff), (0xfff0, 0xffff)]

  const LOWER_HEX: string := "0123456789abcdef"

  predicate InRange(c: Unit, ranges: seq<(Unit, Unit)>, i: nat)
    requires i < |ranges|
  {
    ranges[i].0 <= c <= ranges[i].1
  }

  predicate InSome(c: Unit, ranges: seq<(Unit, Unit)>) {
    exists i | 0 <= i < |ranges| :: InRange(c, ranges, i)
  }

  predicate Hidden(c: Unit) {
    InSome(c, HIDDEN)
  }

  /** Backspace, tab, line feed, form feed, carriage return, quotation mark and backslash. */
  function Letter(c: Unit): Option<char> {
    match c
    case 0x08 => Some('b')
    case 0x09 => Some('t')
    case 0x0a => Some('n')
    case 0x0c => Some('f')
    case 0x0d => Some('r')
    case 0x22 => Some('\"')
    case 0x5c => Some('\\')
    case _ => None
  }

  function CodeOf(c: char): Unit {
    c as int % 0x10000
  }

  /** The last hexadecimal digit of a number. */
  function HexAt(n: nat): Unit {
    CodeOf(LOWER_HEX[n % 16])
  }

  /** One character as it is written between quotation marks. */
  function Written(c: Unit): Text {
    if Letter(c).Some? then [CodeOf('\\'), CodeOf(Letter(c).value)]
    else if Hidden(c) then
      [CodeOf('\\'), CodeOf('u'), HexAt(c / 0x1000), HexAt(c / 0x100), HexAt(c / 0x10), HexAt(c)]
    else [c]
  }

  function WrittenAll(s: Text): Text {
    if s == [] then [] else Written(s[0]) + WrittenAll(s[1..])
  }

  // ----- Quoting does that.

  lemma HiddenIs(c: Unit)
    ensures Hidden(c) <==> Escapable(c) && c != QUOTE && c != BACKSLASH
  {
    assert |HIDDEN| == 11;
    if Escapable(c) && c != QUOTE && c != BACKSLASH {
      var i :=
        if c <= 0x1f then 0 else if c <= 0x9f then 1 else if c <= 0xad then 2 else if c <= 0x604 then 3
        else if c <= 0x70f then 4 else if c <= 0x17b5 then 5 else if c <= 0x200f then 6 else if c <= 0x202f then 7
        else if c <= 0x206f then 8 else if c <= 0xfeff then 9 else 10;
      assert InRange(c, HIDDEN, i);
    }
  }

  lemma DigitIs(n: nat)
    ensures HexDigit(n % 16) == HexAt(n)
  {
    assert |LOWER_HEX| == 16;
  }

  lemma FourDigits(c: Unit)
    ensures HexDigits(c, 4) == [HexAt(c / 0x1000), HexAt(c / 0x100), HexAt(c / 0x10), HexAt(c)]
  {
    DigitIs(c);
    DigitIs(c / 0x10);
    DigitIs(c / 0x100);
    DigitIs(c / 0x1000);
    var n := c / 0x10;
    assert c / 0x100 == n / 0x10 && c / 0x1000 == n / 0x10 / 0x10;
    assert HexDigits(c / 0x1000, 1) == [HexAt(c / 0x1000)];
    assert HexDigits(c / 0x100, 2) == [HexAt(c / 0x1000), HexAt(c / 0x100)];
    assert HexDigits(n, 3) == [HexAt(c / 0x1000), HexAt(c / 0x100), HexAt(n)];
  }

  lemma HexIsWritten(c: Unit)
    ensures UnicodeEscape(c) ==
            [CodeOf('\\'), CodeOf('u'), HexAt(c / 0x1000), HexAt(c / 0x100), HexAt(c / 0x10), HexAt(c)]
  {
    Hex4(c);
    FourDigits(c);
  }

  lemma ShortIs(c: Unit)
    ensures ShortEscape(c) == (if Letter(c).Some? then CodeOf(Letter(c).value) else -1)
    ensures Letter(c).Some? ==> Escapable(c)
  {}

  lemma QuoteCases(c: Unit, short: int)
    requires short == ShortEscape(c)
    ensures !Escapable(c) ==> QuoteUnit(c) == [c]
    ensures Escapable(c) && short >= 0 ==> QuoteUnit(c) == [BACKSLASH, short]
    ensures Escapable(c) && short < 0 ==> QuoteUnit(c) == UnicodeEscape(c)
  {}

  lemma WrittenCases(c: Unit, letter: Option<char>)
    requires letter == Letter(c)
    ensures letter.Some? ==> Written(c) == [BACKSLASH, CodeOf(letter.value)]
    ensures letter.None? && !Hidden(c) ==> Written(c) == [c]
    ensures letter.None? && Hidden(c) ==>
              Written(c) ==
              [CodeOf('\\'), CodeOf('u'), HexAt(c / 0x1000), HexAt(c / 0x100), HexAt(c / 0x10), HexAt(c)]
  {}

  lemma UnitIsWritten(c: Unit)
    ensures QuoteUnit(c) == Written(c)
  {
    HiddenIs(c);
    ShortIs(c);
    QuoteCases(c, ShortEscape(c));
    WrittenCases(c, Letter(c));
    if Hidden(c) {
      HexIsWritten(c);
    }
  }

  lemma {:induction false} BodyIsWritten(s: Text)
    ensures QuoteBody(s) == WrittenAll(s)
  {
    if s != [] {
      UnitIsWritten(s[0]);
      BodyIsWritten(s[1..]);
    }
  }

  /** A quoted string is its characters between quotation marks: a letter after a backslash for the
      characters that have one, the four lower-case digits of its code for another hidden
      character, and every other character as it is. */
  lemma QuoteExactly(s: Text)
    ensures Quote(s) == [CodeOf('\"')] + WrittenAll(s) + [CodeOf('\"')]
  {
    QuoteIsBody(s);
    BodyIsWritten(s);
  }

  // ----- Printed texts hold nothing hidden.

  /** A character that is shown, a line feed or a part of the indentation. */
  predicate Shown(c: Unit, indent: Text) {
    !Hidden(c) || c == NEWLINE || c in indent
  }

  predicate AllShown(t: Text, indent: Text) {
    forall c | c in t :: Shown(c, indent)
  }

  /** Printable characters of ASCII are shown. */
  lemma PlainShown(t: Text, indent: Text)
    requires forall c | c in t :: 0x20 <= c < 0x7f
    ensures AllShown(t, indent)
  {
    forall c | c in t ensures Shown(c, indent) {
      HiddenIs(c);
    }
  }

  lemma DigitPlain(n: nat)
    ensures 0x20 <= HexAt(n) < 0x7f
  {
    DigitIs(n);
  }

  lemma HexPlain(c: Unit)
    requires Letter(c).None? && Hidden(c)
    ensures forall u | u in Written(c) :: 0x20 <= u < 0x7f
  {
    DigitPlain(c);
    DigitPlain(c / 0x10);
    DigitPlain(c / 0x100);
    DigitPlain(c / 0x1000);
  }

  lemma WrittenShown(c: Unit, indent: Text)
    ensures AllShown(Written(c), indent)
  {
    if Letter(c).Some? {
      PlainShown(Written(c), indent);
    } else if Hidden(c) {
      HexPlain(c);
      PlainShown(Written(c), indent);
    } else {
      assert Written(c) == [c];
    }
  }

  lemma {:induction false} AllWrittenShown(s: Text, indent: Text)
    ensures AllShown(WrittenAll(s), indent)
  {
    if s != [] {
      WrittenShown(s[0], indent);
      AllWrittenShown(s[1..], indent);
    }
  }

  lemma NumberPlain(n: Number)
    requires ValidNumber(n)
    ensures forall c | c in NumberText(n) :: 0x20 <= c < 0x7f
  {
    forall c | c in FractionText(n.fraction) ensures 0x20 <= c < 0x7f {}
    forall c | c in ExponentText(n.exponent) ensures 0x20 <= c < 0x7f {}
  }

  /** A token whose text is shown. */
  predicate TokenFits(k: Token, indent: Text) {
    if k.Blank? then AllShown(k.t, indent) else ProperToken(k)
  }

  lemma TokenShown(k: Token, indent: Text)
    requires TokenFits(k, indent)
    ensures AllShown(TokenText(k), indent)
  {
    match k
    case Punct(c) => PlainShown([c], indent);
    case Literal(w) => PlainShown(WordText(w), indent);
    case Numeral(n) =>
      NumberPlain(n);
      PlainShown(NumberText(n), indent);
    case Quoted(s) =>
      QuoteExactly(s);
      AllWrittenShown(s, indent);
      PlainShown([QUOTE], indent);
    case Blank(_) =>
  }

  lemma {:induction false} RenderShown(ks: seq<Token>, indent: Text)
    requires forall k | k in ks :: TokenFits(k, indent)
    ensures AllShown(Render(ks), indent)
  {
    if ks != [] {
      TokenShown(ks[0], indent);
      RenderShown(ks[1..], indent);
    }
  }

  lemma {:induction false} RepeatShown(indent: Text, depth: nat)
    ensures forall c | c in Repeat(indent, depth) :: c in indent
  {
    if depth > 0 {
      RepeatShown(indent, depth - 1);
    }
  }

  lemma LeadShown(ks: seq<Token>, i: nat, depth: nat, indent: Text, k: Token)
    requires i < |ks| && k in Lead(ks, i, depth, indent)
    ensures k.Blank? && AllShown(k.t, indent)
  {
    RepeatShown(indent, depth);
    RepeatShown(indent, Less(depth));
    PlainShown([SPACE], indent);
  }

  /** The layout adds white space only. */
  lemma {:induction false} LaidShown(ks: seq<Token>, i: nat, depth: nat, indent: Text, k: Token)
    requires i <= |ks| && k in Laid(ks, i, depth, indent)
    ensures k in ks || (k.Blank? && AllShown(k.t, indent))
    decreases |ks| - i
  {
    if i < |ks| {
      if k in Lead(ks, i, depth, indent) {
        LeadShown(ks, i, depth, indent, k);
      } else if k != ks[i] {
        LaidShown(ks, i + 1, Deeper(ks[i], depth), indent, k);
      }
    }
  }

  lemma {:induction false} MarksAreNotBlank(ks: seq<Token>, k: Token)
    requires k in Marks(ks)
    ensures !k.Blank?
  {
    if !ks[0].Blank? && k == ks[0] {
    } else {
      MarksAreNotBlank(ks[1..], k);
    }
  }

  lemma CompactFits(v: Value, indent: Text, k: Token)
    requires Proper(v) && k in Compact(v)
    ensures TokenFits(k, indent)
  {
    TokensReadable(v, [], []);
    MarksAreCompact(v, [], []);
    MarksAreNotBlank(Compact(v), k);
  }

  lemma LaidFits(v: Value, indent: Text, laid: seq<Token>)
    requires Proper(v) && laid == Laid(Compact(v), 0, 0, indent)
    ensures forall k | k in laid :: TokenFits(k, indent)
  {
    forall k | k in laid ensures TokenFits(k, indent) {
      LaidShown(Compact(v), 0, 0, indent, k);
      if k in Compact(v) {
        CompactFits(v, indent, k);
      }
    }
  }

  /** Whatever a value holds, the printed text has no hidden character but the line feeds and the
      indentation. */
  lemma PrintedIsShown(v: Value, indent: Text)
    requires Proper(v)
    ensures AllShown(Print(v, [], indent), indent)
  {
    var laid := Laid(Compact(v), 0, 0, indent);
    PrintIsLaid(v, indent);
    LaidFits(v, indent, laid);
    RenderShown(laid, indent);
  }
}
