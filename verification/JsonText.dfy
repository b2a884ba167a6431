/** JSON texts as sequences of UTF-16 code units, JSON values and their tokens
    (www/js/json2.js). */
module JsonText {

  type Unit = c: int | 0 <= c < 0x10000
  type Text = seq<Unit>

  // ----- The characters of the grammar.

  const TAB: Unit := 9
  const NEWLINE: Unit := 10
  const RETURN: Unit := 13
  const SPACE: Unit := 32
  const QUOTE: Unit := 34
  const PLUS: Unit := 43
  const COMMA: Unit := 44
  const MINUS: Unit := 45
  const DOT: Unit := 46
  const SLASH: Unit := 47
  const ZERO: Unit := 48
  const COLON: Unit := 58
  const BACKSLASH: Unit := 92
  const LBRACKET: Unit := 91
  const RBRACKET: Unit := 93
  const LBRACE: Unit := 123
  const RBRACE: Unit := 125
  const LOWER_E: Unit := 101
  const UPPER_E: Unit := 69
  const LOWER_U: Unit := 117

  predicate IsBlank(c: Unit) {
    c == SPACE || c == TAB || c == NEWLINE || c == RETURN
  }

  predicate AllBlank(t: Text) {
    forall i | 0 <= i < |t| :: IsBlank(t[i])
  }

  predicate IsDigit(c: Unit) {
    48 <= c <= 57
  }

  predicate AllDigits(t: Text) {
    forall i | 0 <= i < |t| :: IsDigit(t[i])
  }

  predicate IsPunct(c: Unit) {
    c == LBRACKET || c == RBRACKET || c == LBRACE || c == RBRACE || c == COMMA || c == COLON
  }

  /** The sequence holds w between two positions. */
  predicate Spans<T(==)>(t: seq<T>, i: nat, j: nat, w: seq<T>) {
    i <= j <= |t| && t[i..j] == w
  }

  lemma SpanAt<T>(t: seq<T>, i: nat, j: nat, w: seq<T>, k: nat)
    requires Spans(t, i, j, w) && k < |w|
    ensures i + k < j && t[i + k] == w[k]
  {
    assert t[i..j][k] == w[k];
  }

  lemma SpanSplit<T>(t: seq<T>, i: nat, j: nat, u: seq<T>, v: seq<T>) returns (m: nat)
    requires Spans(t, i, j, u + v)
    ensures m == i + |u| && Spans(t, i, m, u) && Spans(t, m, j, v)
  {
    m := i + |u|;
    assert t[i..m] == t[i..j][..|u|] == u;
    assert t[m..j] == t[i..j][|u|..] == v;
  }

  lemma Associate(u: Text, v: Text, w: Text)
    ensures u + (v + w) == (u + v) + w
  {}

  // ----- Values.

  /** A finite number, by its decimal text: sign, whole part, fraction and exponent. */
  datatype Number = Number(negative: bool, whole: Text, fraction: Text, exponent: Exponent)
  datatype Exponent = NoExponent | Exponent(negative: bool, digits: Text)

  predicate ValidNumber(n: Number) {
    && n.whole != [] && AllDigits(n.whole) && (n.whole[0] == ZERO ==> |n.whole| == 1)
    && AllDigits(n.fraction)
    && (n.exponent.Exponent? ==> n.exponent.digits != [] && AllDigits(n.exponent.digits))
  }

  function FractionText(fraction: Text): Text {
    if fraction == [] then [] else [DOT] + fraction
  }

  function ExponentText(e: Exponent): Text {
    match e
    case NoExponent => []
    case Exponent(negative, digits) => [LOWER_E, if negative then MINUS else PLUS] + digits
  }

  /** The text of a number: no leading zeros, and an exponent always signed. */
  function NumberText(n: Number): Text {
    (if n.negative then [MINUS] else []) + n.whole + FractionText(n.fraction) + ExponentText(n.exponent)
  }

  datatype Value =
    | Null
    | Boolean(b: bool)
    | Num(n: Number)
    | NotFinite
    | Str(s: Text)
    | Arr(elements: seq<Value>)
    | Obj(members: seq<Member>)
  datatype Member = Member(key: Text, value: Value)

  predicate Proper(v: Value) {
    match v
    case Num(n) => ValidNumber(n)
    case Arr(elements) => forall e | e in elements :: Proper(e)
    case Obj(members) => forall m | m in members :: Proper(m.value)
    case _ => true
  }

  // ----- Tokens.

  datatype Word = NullWord | TrueWord | FalseWord

  function WordText(w: Word): Text {
    match w
    case NullWord => [110, 117, 108, 108]
    case TrueWord => [116, 114, 117, 101]
    case FalseWord => [102, 97, 108, 115, 101]
  }

  datatype Token =
    | Punct(c: Unit)
    | Literal(w: Word)
    | Numeral(n: Number)
    | Quoted(s: Text)
    | Blank(t: Text)

  predicate ProperToken(k: Token) {
    match k
    case Punct(c) => IsPunct(c)
    case Numeral(n) => ValidNumber(n)
    case Blank(t) => t != [] && AllBlank(t)
    case _ => true
  }

  predicate ProperTokens(ks: seq<Token>) {
    forall i | 0 <= i < |ks| :: ProperToken(ks[i])
  }

  /** A numeral is followed by a mark or by white space. */
  predicate Separated(ks: seq<Token>) {
    forall i | 0 <= i < |ks| - 1 :: ks[i].Numeral? ==> ks[i + 1].Punct? || ks[i + 1].Blank?
  }

  /** The tokens without white space. */
  function Marks(ks: seq<Token>): seq<Token> {
    if ks == [] then []
    else if ks[0].Blank? then Marks(ks[1..])
    else [ks[0]] + Marks(ks[1..])
  }

  // ----- Quoting (function quote).

  predicate Escapable(c: Unit) {
    || c == BACKSLASH || c == QUOTE || c <= 0x1f || 0x7f <= c <= 0x9f || c == 0xad
    || 0x600 <= c <= 0x604 || c == 0x70f || c == 0x17b4 || c == 0x17b5
    || 0x200c <= c <= 0x200f || 0x2028 <= c <= 0x202f || 0x2060 <= c <= 0x206f
    || c == 0xfeff || 0xfff0 <= c
  }

  function HexDigit(d: int): Unit
    requires 0 <= d < 16
  {
    if d < 10 then 48 + d else 87 + d
  }

  /** The number in hexadecimal, without leading zeros. */
  function HexText(n: nat): (t: Text)
    requires n < 0x10000
    ensures |t| >= 1
  {
    if n < 16 then [HexDigit(n)] else HexText(n / 16) + [HexDigit(n % 16)]
  }

  /** The four last characters of the hexadecimal text padded with four zeros. */
  function UnicodeEscape(c: Unit): Text {
    var padded := [ZERO, ZERO, ZERO, ZERO] + HexText(c);
    [BACKSLASH, LOWER_U] + padded[|padded| - 4..]
  }

  /** The table of short escapes: the letter after the backslash. */
  function ShortEscape(c: Unit): (letter: int)
    ensures -1 <= letter < 0x10000
  {
    if c == 8 then 98
    else if c == 9 then 116
    else if c == 10 then 110
    else if c == 12 then 102
    else if c == 13 then 114
    else if c == QUOTE then QUOTE
    else if c == BACKSLASH then BACKSLASH
    else -1
  }

  function QuoteUnit(c: Unit): (t: Text)
    ensures |t| >= 1
  {
    if !Escapable(c) then [c]
    else if ShortEscape(c) >= 0 then [BACKSLASH, ShortEscape(c)]
    else UnicodeEscape(c)
  }

  function QuoteBody(s: Text): Text {
    if s == [] then [] else QuoteUnit(s[0]) + QuoteBody(s[1..])
  }

  /** A string that has no character to escape is copied as it is. */
  function Quote(s: Text): Text {
    if exists i | 0 <= i < |s| :: Escapable(s[i]) then [QUOTE] + QuoteBody(s) + [QUOTE]
    else [QUOTE] + s + [QUOTE]
  }

  lemma {:induction false} PlainBody(s: Text)
    requires forall i | 0 <= i < |s| :: !Escapable(s[i])
    ensures QuoteBody(s) == s
  {
    if s != [] {
      PlainBody(s[1..]);
    }
  }

  lemma QuoteIsBody(s: Text)
    ensures Quote(s) == [QUOTE] + QuoteBody(s) + [QUOTE]
  {
    if forall i | 0 <= i < |s| :: !Escapable(s[i]) {
      PlainBody(s);
    }
  }

  /** The last k hexadecimal digits of a number. */
  function HexDigits(n: nat, k: nat): (t: Text)
    ensures |t| == k
  {
    if k == 0 then [] else HexDigits(n / 16, k - 1) + [HexDigit(n % 16)]
  }

  function Zeros(k: nat): (t: Text)
    ensures |t| == k && forall i | 0 <= i < k :: t[i] == ZERO
  {
    seq(k, i => ZERO)
  }

  function Last(t: Text, k: nat): Text
    requires k <= |t|
  {
    t[|t| - k..]
  }

  lemma LastGrows(first: Unit, t: Text, last: Unit, k: nat)
    requires 1 <= k <= |t| + 1
    ensures Last([first] + t + [last], k) == Last(t, k - 1) + [last]
  {}

  lemma {:induction false} PaddedHex(n: nat, k: nat)
    requires n < 0x10000 && 1 <= k <= 4 && n < Power16(k)
    ensures Last(Zeros(k) + HexText(n), k) == HexDigits(n, k)
  {
    if n < 16 {
      ZeroDigits(k - 1);
      assert Zeros(k) + [HexDigit(n)] == [ZERO] + Zeros(k - 1) + [HexDigit(n)];
      LastGrows(ZERO, Zeros(k - 1), HexDigit(n), k);
    } else {
      PaddedHex(n / 16, k - 1);
      assert Zeros(k) + HexText(n) == [ZERO] + (Zeros(k - 1) + HexText(n / 16)) + [HexDigit(n % 16)];
      LastGrows(ZERO, Zeros(k - 1) + HexText(n / 16), HexDigit(n % 16), k);
    }
  }

  function Power16(k: nat): nat {
    if k == 0 then 1 else 16 * Power16(k - 1)
  }

  lemma {:induction false} ZeroDigits(k: nat)
    ensures HexDigits(0, k) == Zeros(k)
  {
    if k > 0 {
      ZeroDigits(k - 1);
      assert HexDigits(0, k) == Zeros(k - 1) + [ZERO];
    }
  }

  lemma Hex4(c: Unit)
    ensures UnicodeEscape(c) == [BACKSLASH, LOWER_U] + HexDigits(c, 4)
  {
    assert Power16(4) == 16 * Power16(3) == 256 * Power16(2) == 0x1000 * Power16(1) == 0x10000;
    PaddedHex(c, 4);
    assert Zeros(4) == [ZERO, ZERO, ZERO, ZERO];
  }

  // ----- The text of tokens.

  function TokenText(k: Token): Text {
    match k
    case Punct(c) => [c]
    case Literal(w) => WordText(w)
    case Numeral(n) => NumberText(n)
    case Quoted(s) => Quote(s)
    case Blank(t) => t
  }

  function Render(ks: seq<Token>): Text {
    if ks == [] then [] else TokenText(ks[0]) + Render(ks[1..])
  }

  lemma {:induction false} RenderAppend(ks: seq<Token>, ls: seq<Token>)
    ensures Render(ks + ls) == Render(ks) + Render(ls)
  {
    if ks == [] {
      assert ks + ls == ls;
    } else {
      assert (ks + ls)[1..] == ks[1..] + ls;
      RenderAppend(ks[1..], ls);
    }
  }

  lemma {:induction false} MarksAppend(ks: seq<Token>, ls: seq<Token>)
    ensures Marks(ks + ls) == Marks(ks) + Marks(ls)
  {
    if ks == [] {
      assert ks + ls == ls;
    } else {
      assert (ks + ls)[1..] == ks[1..] + ls;
      MarksAppend(ks[1..], ls);
    }
  }
}
