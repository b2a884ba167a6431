/** A reference parser of JSON texts (sections 2 to 7 of RFC 8259). */
module JsonParser {
  import opened Wrappers
  import opened JsonText

  /** What was found at a position, and the position after it. */
  datatype Part<+T> = Failed | Found(value: T, next: nat)

  // ----- Numbers (section 6).

  function DigitsEnd(t: Text, i: nat): (j: nat)
    requires i <= |t|
    ensures i <= j <= |t|
    ensures forall k | i <= k < j :: IsDigit(t[k])
    ensures j < |t| ==> !IsDigit(t[j])
    decreases |t| - i
  {
    if i < |t| && IsDigit(t[i]) then DigitsEnd(t, i + 1) else i
  }

  function WholeAt(t: Text, i: nat): (p: Part<Text>)
    requires i <= |t|
    ensures p.Found? ==> i < p.next <= |t|
  {
    var j := DigitsEnd(t, i);
    if j == i || (t[i] == ZERO && j > i + 1) then Failed else Found(t[i..j], j)
  }

  function FractionAt(t: Text, i: nat): (p: Part<Text>)
    requires i <= |t|
    ensures p.Found? ==> i <= p.next <= |t|
  {
    if i < |t| && t[i] == DOT then
      var j := DigitsEnd(t, i + 1);
      if j == i + 1 then Failed else Found(t[i + 1..j], j)
    else Found([], i)
  }

  function ExponentAt(t: Text, i: nat): (p: Part<Exponent>)
    requires i <= |t|
    ensures p.Found? ==> i <= p.next <= |t|
  {
    if i < |t| && (t[i] == LOWER_E || t[i] == UPPER_E) then
      var signed := i + 1 < |t| && (t[i + 1] == PLUS || t[i + 1] == MINUS);
      var a := if signed then i + 2 else i + 1;
      var j := DigitsEnd(t, a);
      if j == a then Failed else Found(Exponent(signed && t[i + 1] == MINUS, t[a..j]), j)
    else Found(NoExponent, i)
  }

  function NumberAt(t: Text, i: nat): (p: Part<Number>)
    requires i < |t|
    ensures p.Found? ==> i < p.next <= |t|
  {
    var negative := t[i] == MINUS;
    var w := WholeAt(t, if negative then i + 1 else i);
    if w.Failed? then Failed else
    var f := FractionAt(t, w.next);
    if f.Failed? then Failed else
    var e := ExponentAt(t, f.next);
    if e.Failed? then Failed else Found(Number(negative, w.value, f.value, e.value), e.next)
  }

  // ----- Strings (section 7).

  function HexValue(c: Unit): Option<nat> {
    if 48 <= c <= 57 then Some(c - 48)
    else if 65 <= c <= 70 then Some(c - 55)
    else if 97 <= c <= 102 then Some(c - 87)
    else None
  }

  /** The number written by the k hexadecimal digits at position i. */
  function HexAt(t: Text, i: nat, k: nat): Option<nat>
    requires i + k <= |t|
  {
    if k == 0 then Some(0)
    else
      var high, low := HexAt(t, i, k - 1), HexValue(t[i + k - 1]);
      if high.Some? && low.Some? then Some(16 * high.value + low.value) else None
  }

  /** The character meant by the letter after a backslash. */
  function Unescape(letter: Unit): Option<Unit> {
    if letter == QUOTE || letter == BACKSLASH || letter == SLASH then Some(letter)
    else if letter == 98 then Some(8)
    else if letter == 102 then Some(12)
    else if letter == 110 then Some(10)
    else if letter == 114 then Some(13)
    else if letter == 116 then Some(9)
    else None
  }

  /** The character at a position inside a string. */
  function CharAt(t: Text, i: nat): (p: Part<Unit>)
    requires i < |t|
    ensures p.Found? ==> i < p.next <= |t|
  {
    if t[i] < 0x20 || t[i] == QUOTE then Failed
    else if t[i] != BACKSLASH then Found(t[i], i + 1)
    else if i + 1 == |t| then Failed
    else if t[i + 1] == LOWER_U then
      if i + 6 > |t| then Failed else
      var n := HexAt(t, i + 2, 4);
      if n.Some? && n.value < 0x10000 then Found(n.value, i + 6) else Failed
    else if Unescape(t[i + 1]).Some? then Found(Unescape(t[i + 1]).value, i + 2)
    else Failed
  }

  /** The characters from position i on, up to the closing quote. */
  function StringAt(t: Text, i: nat): (p: Part<Text>)
    requires i <= |t|
    ensures p.Found? ==> i < p.next <= |t|
    decreases |t| - i
  {
    if i == |t| then Failed
    else if t[i] == QUOTE then Found([], i + 1)
    else
      var c := CharAt(t, i);
      if c.Failed? then Failed else
      var rest := StringAt(t, c.next);
      if rest.Failed? then Failed else Found([c.value] + rest.value, rest.next)
  }

  // ----- Tokens (sections 2 and 3).

  predicate StartsWord(t: Text, i: nat, w: Word) {
    i + |WordText(w)| <= |t| && t[i..i + |WordText(w)|] == WordText(w)
  }

  function WordAt(t: Text, i: nat): (p: Part<Word>)
    requires i <= |t|
    ensures p.Found? ==> Spans(t, i, p.next, WordText(p.value))
  {
    if StartsWord(t, i, NullWord) then Found(NullWord, i + 4)
    else if StartsWord(t, i, TrueWord) then Found(TrueWord, i + 4)
    else if StartsWord(t, i, FalseWord) then Found(FalseWord, i + 5)
    else Failed
  }

  function TokenAt(t: Text, i: nat): (p: Part<Token>)
    requires i < |t|
    ensures p.Found? ==> i < p.next <= |t|
  {
    if IsPunct(t[i]) then Found(Punct(t[i]), i + 1)
    else if t[i] == QUOTE then
      var s := StringAt(t, i + 1);
      if s.Failed? then Failed else Found(Quoted(s.value), s.next)
    else if t[i] == MINUS || IsDigit(t[i]) then
      var n := NumberAt(t, i);
      if n.Failed? then Failed else Found(Numeral(n.value), n.next)
    else
      var w := WordAt(t, i);
      if w.Failed? then Failed else Found(Literal(w.value), w.next)
  }

  /** The tokens from position i on; white space between them is skipped. */
  function Lex(t: Text, i: nat): Option<seq<Token>>
    requires i <= |t|
    decreases |t| - i
  {
    if i == |t| then Some([])
    else if IsBlank(t[i]) then Lex(t, i + 1)
    else
      var k := TokenAt(t, i);
      if k.Failed? then None else
      var rest := Lex(t, k.next);
      if rest.None? then None else Some([k.value] + rest.value)
  }

  // ----- Values (sections 3 to 5).

  function WordValue(w: Word): Value {
    match w
    case NullWord => Null
    case TrueWord => Boolean(true)
    case FalseWord => Boolean(false)
  }

  predicate Is(ts: seq<Token>, i: nat, c: Unit) {
    i < |ts| && ts[i] == Punct(c)
  }

  function ValueAt(ts: seq<Token>, i: nat): (p: Part<Value>)
    requires i <= |ts|
    ensures p.Found? ==> i < p.next <= |ts|
    decreases |ts| - i, 0
  {
    if i == |ts| then Failed
    else
      match ts[i]
      case Literal(w) => Found(WordValue(w), i + 1)
      case Numeral(n) => Found(Num(n), i + 1)
      case Quoted(s) => Found(Str(s), i + 1)
      case Blank(_) => Failed
      case Punct(c) =>
        if c == LBRACKET then
          if Is(ts, i + 1, RBRACKET) then Found(Arr([]), i + 2) else
          var es := ElementsAt(ts, i + 1);
          if es.Failed? then Failed else Found(Arr(es.value), es.next)
        else if c == LBRACE then
          if Is(ts, i + 1, RBRACE) then Found(Obj([]), i + 2) else
          var ms := MembersAt(ts, i + 1);
          if ms.Failed? then Failed else Found(Obj(ms.value), ms.next)
        else Failed
  }

  /** The elements from position i on, up to the closing bracket. */
  function ElementsAt(ts: seq<Token>, i: nat): (p: Part<seq<Value>>)
    requires i <= |ts|
    ensures p.Found? ==> i < p.next <= |ts| && p.value != []
    decreases |ts| - i, 1
  {
    var v := ValueAt(ts, i);
    if v.Failed? then Failed
    else if Is(ts, v.next, RBRACKET) then Found([v.value], v.next + 1)
    else if !Is(ts, v.next, COMMA) then Failed
    else
      var rest := ElementsAt(ts, v.next + 1);
      if rest.Failed? then Failed else Found([v.value] + rest.value, rest.next)
  }

  function MembersAt(ts: seq<Token>, i: nat): (p: Part<seq<Member>>)
    requires i <= |ts|
    ensures p.Found? ==> i < p.next <= |ts| && p.value != []
    decreases |ts| - i, 1
  {
    if i == |ts| || !ts[i].Quoted? || !Is(ts, i + 1, COLON) then Failed
    else
      var v := ValueAt(ts, i + 2);
      if v.Failed? then Failed
      else if Is(ts, v.next, RBRACE) then Found([Member(ts[i].s, v.value)], v.next + 1)
      else if !Is(ts, v.next, COMMA) then Failed
      else
        var rest := MembersAt(ts, v.next + 1);
        if rest.Failed? then Failed else Found([Member(ts[i].s, v.value)] + rest.value, rest.next)
  }

  /** The value of a JSON text, if it is one. */
  function Parse(t: Text): Option<Value> {
    var ts := Lex(t, 0);
    if ts.None? then None else
    var v := ValueAt(ts.value, 0);
    if v.Found? && v.next == |ts.value| then Some(v.value) else None
  }

  // ----- Reading one token.

  /** A number may end here. */
  predicate Clear(t: Text, i: nat) {
    i < |t| ==> !IsDigit(t[i]) && t[i] != DOT && t[i] != LOWER_E && t[i] != UPPER_E
  }

  lemma ReadDigits(t: Text, i: nat, j: nat, ds: Text)
    requires Spans(t, i, j, ds) && AllDigits(ds)
    requires j < |t| ==> !IsDigit(t[j])
    ensures DigitsEnd(t, i) == j
  {
    var d := DigitsEnd(t, i);
    if d < j {
      SpanAt(t, i, j, ds, d - i);
    }
  }

  lemma ReadWhole(t: Text, i: nat, j: nat, whole: Text)
    requires Spans(t, i, j, whole) && AllDigits(whole)
    requires whole != [] && (whole[0] == ZERO ==> |whole| == 1)
    requires j < |t| ==> !IsDigit(t[j])
    ensures WholeAt(t, i) == Found(whole, j) && i < |t| && IsDigit(t[i])
  {
    ReadDigits(t, i, j, whole);
    SpanAt(t, i, j, whole, 0);
  }

  lemma ReadFraction(t: Text, i: nat, j: nat, fraction: Text)
    requires Spans(t, i, j, FractionText(fraction)) && AllDigits(fraction)
    requires j < |t| ==> !IsDigit(t[j]) && t[j] != DOT
    ensures FractionAt(t, i) == Found(fraction, j)
    ensures i < |t| ==> !IsDigit(t[i])
  {
    if fraction != [] {
      SpanAt(t, i, j, FractionText(fraction), 0);
      var m := SpanSplit(t, i, j, [DOT], fraction);
      ReadDigits(t, i + 1, j, fraction);
    }
  }

  lemma ReadExponent(t: Text, i: nat, j: nat, e: Exponent)
    requires Spans(t, i, j, ExponentText(e)) && Clear(t, j)
    requires e.Exponent? ==> e.digits != [] && AllDigits(e.digits)
    ensures ExponentAt(t, i) == Found(e, j)
    ensures i < |t| ==> !IsDigit(t[i]) && t[i] != DOT
  {
    if e.Exponent? {
      var head := [LOWER_E, if e.negative then MINUS else PLUS];
      SpanAt(t, i, j, ExponentText(e), 0);
      SpanAt(t, i, j, ExponentText(e), 1);
      var m := SpanSplit(t, i, j, head, e.digits);
      ReadDigits(t, i + 2, j, e.digits);
    }
  }

  /** The parts of the number at a position. */
  predicate PartsAt(t: Text, i: nat, n: Number, a: nat, f: nat, e: nat, next: nat) {
    && i < |t| && a == (if t[i] == MINUS then i + 1 else i) && (n.negative <==> t[i] == MINUS)
    && a <= f <= e <= |t| && WholeAt(t, a) == Found(n.whole, f)
    && FractionAt(t, f) == Found(n.fraction, e) && ExponentAt(t, e) == Found(n.exponent, next)
  }

  lemma PartsMakeNumber(t: Text, i: nat, n: Number, a: nat, f: nat, e: nat, next: nat)
    requires PartsAt(t, i, n, a, f, e, next)
    ensures NumberAt(t, i) == Found(n, next)
  {}

  function SignText(n: Number): Text {
    if n.negative then [MINUS] else []
  }

  lemma NumberSplits(t: Text, i: nat, j: nat, n: Number) returns (a: nat, f: nat, e: nat)
    requires Spans(t, i, j, NumberText(n))
    ensures Spans(t, i, a, SignText(n)) && Spans(t, a, f, n.whole)
    ensures Spans(t, f, e, FractionText(n.fraction)) && Spans(t, e, j, ExponentText(n.exponent))
  {
    e := SpanSplit(t, i, j, SignText(n) + n.whole + FractionText(n.fraction), ExponentText(n.exponent));
    f := SpanSplit(t, i, e, SignText(n) + n.whole, FractionText(n.fraction));
    a := SpanSplit(t, i, f, SignText(n), n.whole);
  }

  lemma SignRead(t: Text, i: nat, a: nat, n: Number)
    requires Spans(t, i, a, SignText(n)) && a < |t| && IsDigit(t[a])
    ensures i < |t| && a == (if t[i] == MINUS then i + 1 else i) && (n.negative <==> t[i] == MINUS)
    ensures t[i] == MINUS || IsDigit(t[i])
  {
    if n.negative {
      SpanAt(t, i, a, SignText(n), 0);
    }
  }

  lemma ReadNumber(t: Text, i: nat, j: nat, n: Number)
    requires ValidNumber(n) && Spans(t, i, j, NumberText(n)) && Clear(t, j)
    ensures i < |t| && NumberAt(t, i) == Found(n, j)
    ensures t[i] == MINUS || IsDigit(t[i])
  {
    var a, f, e := NumberSplits(t, i, j, n);
    ReadExponent(t, e, j, n.exponent);
    ReadFraction(t, f, e, n.fraction);
    ReadWhole(t, a, f, n.whole);
    SignRead(t, i, a, n);
    PartsMakeNumber(t, i, n, a, f, e, j);
  }

  // ----- A number that is moved to another text.

  /** The two texts agree up to j and m, and a number may end there in both. */
  predicate Stretch(t: Text, i: nat, j: nat, u: Text, k: nat, m: nat) {
    i <= j <= |t| && Spans(u, k, m, t[i..j]) && Clear(t, j) && Clear(u, m)
  }

  lemma StretchStep(t: Text, i: nat, j: nat, u: Text, k: nat, m: nat)
    requires Stretch(t, i, j, u, k, m)
    ensures m - k == j - i
    ensures i < j ==> t[i] == u[k] && Stretch(t, i + 1, j, u, k + 1, m)
  {
    if i < j {
      SpanAt(u, k, m, t[i..j], 0);
      assert t[i..j] == [t[i]] + t[i + 1..j];
      var n := SpanSplit(u, k, m, [t[i]], t[i + 1..j]);
    }
  }

  lemma {:induction false} DigitsMove(t: Text, i: nat, j: nat, u: Text, k: nat, m: nat) returns (n: nat)
    requires Stretch(t, i, j, u, k, m)
    ensures n == DigitsEnd(u, k) && Stretch(t, DigitsEnd(t, i), j, u, n, m)
    ensures n - k == DigitsEnd(t, i) - i && u[k..n] == t[i..DigitsEnd(t, i)]
    decreases j - i
  {
    StretchStep(t, i, j, u, k, m);
    n := k;
    if i < j && IsDigit(t[i]) {
      n := DigitsMove(t, i + 1, j, u, k + 1, m);
      assert t[i..DigitsEnd(t, i)] == [t[i]] + t[i + 1..DigitsEnd(t, i)];
      assert u[k..n] == [u[k]] + u[k + 1..n];
    }
  }

  lemma WholeMoves(t: Text, i: nat, j: nat, u: Text, k: nat, m: nat) returns (n: nat)
    requires Stretch(t, i, j, u, k, m) && WholeAt(t, i).Found?
    ensures WholeAt(u, k) == Found(WholeAt(t, i).value, n) && Stretch(t, WholeAt(t, i).next, j, u, n, m)
  {
    StretchStep(t, i, j, u, k, m);
    n := DigitsMove(t, i, j, u, k, m);
  }

  lemma FractionMoves(t: Text, i: nat, j: nat, u: Text, k: nat, m: nat) returns (n: nat)
    requires Stretch(t, i, j, u, k, m) && FractionAt(t, i).Found?
    ensures FractionAt(u, k) == Found(FractionAt(t, i).value, n) && Stretch(t, FractionAt(t, i).next, j, u, n, m)
  {
    StretchStep(t, i, j, u, k, m);
    n := k;
    if i < |t| && t[i] == DOT {
      n := DigitsMove(t, i + 1, j, u, k + 1, m);
    }
  }

  lemma ExponentMoves(t: Text, i: nat, j: nat, u: Text, k: nat, m: nat) returns (n: nat)
    requires Stretch(t, i, j, u, k, m) && ExponentAt(t, i).Found? && ExponentAt(t, i).next <= j
    ensures ExponentAt(u, k) == Found(ExponentAt(t, i).value, n) && Stretch(t, ExponentAt(t, i).next, j, u, n, m)
  {
    StretchStep(t, i, j, u, k, m);
    n := k;
    if i < |t| && (t[i] == LOWER_E || t[i] == UPPER_E) {
      StretchStep(t, i + 1, j, u, k + 1, m);
      if i + 1 < |t| && (t[i + 1] == PLUS || t[i + 1] == MINUS) {
        n := DigitsMove(t, i + 2, j, u, k + 2, m);
      } else {
        n := DigitsMove(t, i + 1, j, u, k + 1, m);
      }
    }
  }

  lemma NumberHasParts(t: Text, i: nat) returns (a: nat, f: nat, e: nat)
    requires i < |t| && NumberAt(t, i).Found?
    ensures PartsAt(t, i, NumberAt(t, i).value, a, f, e, NumberAt(t, i).next)
  {
    a := if t[i] == MINUS then i + 1 else i;
    f := WholeAt(t, a).next;
    e := FractionAt(t, f).next;
  }

  /** A number is read as the same number wherever its characters stand. */
  lemma NumberMoves(t: Text, i: nat, u: Text, k: nat, m: nat)
    requires i < |t| && NumberAt(t, i).Found? && Stretch(t, i, NumberAt(t, i).next, u, k, m)
    ensures k < |u| && u[k] == t[i] && NumberAt(u, k) == Found(NumberAt(t, i).value, m)
  {
    var j := NumberAt(t, i).next;
    var a, f, e := NumberHasParts(t, i);
    StretchStep(t, i, j, u, k, m);
    var b := if t[i] == MINUS then k + 1 else k;
    var g := WholeMoves(t, a, j, u, b, m);
    var h := FractionMoves(t, f, j, u, g, m);
    var n := ExponentMoves(t, e, j, u, h, m);
    StretchStep(t, j, j, u, n, m);
    PartsMakeNumber(u, k, NumberAt(t, i).value, b, g, h, m);
  }

  predicate NumberChar(c: Unit) {
    IsDigit(c) || c == MINUS || c == PLUS || c == DOT || c == LOWER_E || c == UPPER_E
  }

  lemma NumberChars(t: Text, i: nat)
    requires i < |t| && NumberAt(t, i).Found?
    ensures forall x | i <= x < NumberAt(t, i).next :: NumberChar(t[x])
    ensures NumberAt(t, i).next < |t| ==> !IsDigit(t[NumberAt(t, i).next])
  {
    var a, f, e := NumberHasParts(t, i);
  }

  /** A number after which the text can be read on may end there. */
  lemma NumberIsClear(t: Text, i: nat)
    requires i < |t| && NumberAt(t, i).Found? && Lex(t, NumberAt(t, i).next).Some?
    ensures Clear(t, NumberAt(t, i).next)
  {
    NumberChars(t, i);
    ReadsOn(t, NumberAt(t, i).next);
  }

  lemma ReadsOn(t: Text, i: nat)
    requires i < |t| ==> Lex(t, i).Some?
    ensures i < |t| ==> t[i] != DOT && t[i] != LOWER_E && t[i] != UPPER_E && t[i] != BACKSLASH
  {
    if i < |t| && !IsBlank(t[i]) && WordAt(t, i).Found? {
      ReadWord(t, i, WordAt(t, i).next, WordAt(t, i).value);
    }
  }

  lemma {:induction false} ReadHex(t: Text, i: nat, n: nat, k: nat)
    requires Spans(t, i, i + k, HexDigits(n, k)) && n < Power16(k)
    ensures HexAt(t, i, k) == Some(n)
  {
    if k > 0 {
      var m := SpanSplit(t, i, i + k, HexDigits(n / 16, k - 1), [HexDigit(n % 16)]);
      SpanAt(t, m, i + k, [HexDigit(n % 16)], 0);
      ReadHex(t, i, n / 16, k - 1);
    }
  }

  lemma ReadUnit(t: Text, i: nat, j: nat, c: Unit)
    requires Spans(t, i, j, QuoteUnit(c))
    ensures i < |t| && CharAt(t, i) == Found(c, j) && t[i] != QUOTE
  {
    SpanAt(t, i, j, QuoteUnit(c), 0);
    if Escapable(c) {
      if ShortEscape(c) >= 0 {
        SpanAt(t, i, j, QuoteUnit(c), 1);
      } else {
        Hex4(c);
        SpanAt(t, i, j, QuoteUnit(c), 1);
        var m := SpanSplit(t, i, j, [BACKSLASH, LOWER_U], HexDigits(c, 4));
        assert Power16(4) == 16 * Power16(3) == 256 * Power16(2) == 0x1000 * Power16(1) == 0x10000;
        ReadHex(t, i + 2, c, 4);
      }
    }
  }

  lemma StringStep(t: Text, i: nat, c: Unit, m: nat, rest: Text, j: nat)
    requires i < |t| && CharAt(t, i) == Found(c, m) && t[i] != QUOTE && StringAt(t, m) == Found(rest, j)
    ensures StringAt(t, i) == Found([c] + rest, j)
  {}

  lemma BodyStarts(s: Text)
    requires s != []
    ensures QuoteBody(s) + [QUOTE] == QuoteUnit(s[0]) + (QuoteBody(s[1..]) + [QUOTE])
  {}

  /** Unquoting undoes quoting, over all code units. */
  lemma {:induction false} ReadString(t: Text, i: nat, j: nat, s: Text)
    requires Spans(t, i, j, QuoteBody(s) + [QUOTE])
    ensures StringAt(t, i) == Found(s, j)
    decreases |s|
  {
    if s == [] {
      SpanAt(t, i, j, QuoteBody(s) + [QUOTE], 0);
    } else {
      BodyStarts(s);
      var m := SpanSplit(t, i, j, QuoteUnit(s[0]), QuoteBody(s[1..]) + [QUOTE]);
      ReadUnit(t, i, m, s[0]);
      ReadString(t, m, j, s[1..]);
      StringStep(t, i, s[0], m, s[1..], j);
      assert [s[0]] + s[1..] == s;
    }
  }

  lemma ReadWord(t: Text, i: nat, j: nat, w: Word)
    requires Spans(t, i, j, WordText(w))
    ensures WordAt(t, i) == Found(w, j) && i < |t|
    ensures t[i] == 110 || t[i] == 116 || t[i] == 102
  {
    SpanAt(t, i, j, WordText(w), 0);
    forall u | StartsWord(t, i, u) ensures WordText(u)[0] == t[i] {
      SpanAt(t, i, i + |WordText(u)|, WordText(u), 0);
    }
    assert StartsWord(t, i, w);
  }

  lemma ReadQuoted(t: Text, i: nat, j: nat, s: Text)
    requires Spans(t, i, j, Quote(s))
    ensures i < |t| && t[i] == QUOTE && StringAt(t, i + 1) == Found(s, j)
  {
    QuoteIsBody(s);
    assert Quote(s) == [QUOTE] + (QuoteBody(s) + [QUOTE]);
    SpanAt(t, i, j, Quote(s), 0);
    var m := SpanSplit(t, i, j, [QUOTE], QuoteBody(s) + [QUOTE]);
    ReadString(t, i + 1, j, s);
  }

  lemma ReadToken(t: Text, i: nat, j: nat, k: Token)
    requires Spans(t, i, j, TokenText(k)) && ProperToken(k) && !k.Blank?
    requires k.Numeral? ==> Clear(t, j)
    ensures i < |t| && !IsBlank(t[i])
    ensures TokenAt(t, i) == Found(k, j)
  {
    match k
    case Punct(c) => SpanAt(t, i, j, [c], 0);
    case Literal(w) => ReadWord(t, i, j, w);
    case Numeral(n) => ReadNumber(t, i, j, n);
    case Quoted(s) => ReadQuoted(t, i, j, s);
  }

  // ----- Reading a whole text of tokens.

  lemma {:induction false} SkipBlanks(t: Text, i: nat, j: nat, blank: Text)
    requires Spans(t, i, j, blank) && AllBlank(blank)
    ensures Lex(t, i) == Lex(t, j)
    decreases j - i
  {
    if i < j {
      SpanAt(t, i, j, blank, 0);
      assert t[i + 1..j] == blank[1..];
      SkipBlanks(t, i + 1, j, blank[1..]);
    }
  }

  lemma TokenStarts(k: Token)
    requires ProperToken(k)
    ensures TokenText(k) != []
    ensures k.Punct? || k.Blank? ==>
              var c := TokenText(k)[0]; !IsDigit(c) && c != DOT && c != LOWER_E && c != UPPER_E
  {
    if k.Quoted? {
      QuoteIsBody(k.s);
    }
  }

  /** The lexer finds the marks of any text made of proper, separated tokens. */
  lemma {:induction false} LexRender(t: Text, i: nat, ks: seq<Token>)
    requires Spans(t, i, |t|, Render(ks)) && ProperTokens(ks) && Separated(ks)
    ensures Lex(t, i) == Some(Marks(ks))
    decreases |ks|
  {
    if ks != [] {
      var j := SpanSplit(t, i, |t|, TokenText(ks[0]), Render(ks[1..]));
      LexRender(t, j, ks[1..]);
      if ks[0].Blank? {
        SkipBlanks(t, i, j, ks[0].t);
      } else {
        if |ks| > 1 {
          TokenStarts(ks[1]);
          SpanAt(t, j, |t|, Render(ks[1..]), 0);
        }
        ReadToken(t, i, j, ks[0]);
      }
    }
  }
}
