/** The text filter of parse (www/js/json2.js): the replacement of dangerous characters, the three
    replacements by regular expressions and the final test. */
module JsonFilter {
  import opened Wrappers
  import opened JsonText
  import opened JsonPrinter
  import opened JsonParser
  import opened JsonRoundTrip
  import opened JsonIndent

  // ----- Stage one: characters that are mishandled are escaped.

  predicate Mishandled(c: Unit) {
    || c == 0 || c == 0xad || 0x600 <= c <= 0x604 || c == 0x70f || c == 0x17b4 || c == 0x17b5
    || 0x200c <= c <= 0x200f || 0x2028 <= c <= 0x202f || 0x2060 <= c <= 0x206f
    || c == 0xfeff || 0xfff0 <= c
  }

  function EscapeMishandled(t: Text): Text {
    if t == [] then []
    else (if Mishandled(t[0]) then UnicodeEscape(t[0]) else [t[0]]) + EscapeMishandled(t[1..])
  }

  function StageOne(t: Text): Text {
    if exists i | 0 <= i < |t| :: Mishandled(t[i]) then EscapeMishandled(t) else t
  }

  // ----- First replacement: escape sequences become at signs.

  const AT: Unit := 64

  predicate IsHex(c: Unit) {
    HexValue(c).Some?
  }

  /** The length of the escape sequence at position i, or zero. */
  function EscapeLength(t: Text, i: nat): (n: nat)
    requires i < |t|
    ensures i + n <= |t|
  {
    if t[i] != BACKSLASH || i + 1 == |t| then 0
    else if Unescape(t[i + 1]).Some? then 2
    else if t[i + 1] == LOWER_U && i + 6 <= |t| && (forall k | i + 2 <= k < i + 6 :: IsHex(t[k])) then 6
    else 0
  }

  function HideEscapes(t: Text, i: nat): Text
    requires i <= |t|
    decreases |t| - i
  {
    if i == |t| then []
    else if EscapeLength(t, i) > 0 then [AT] + HideEscapes(t, i + EscapeLength(t, i))
    else [t[i]] + HideEscapes(t, i + 1)
  }

  // ----- Second replacement: strings, words and numbers become closing brackets.

  /** The first position from i on that holds a quote, a backslash, a line feed or a return. */
  function PlainEnd(t: Text, i: nat): (j: nat)
    requires i <= |t|
    ensures i <= j <= |t|
    decreases |t| - i
  {
    if i < |t| && t[i] != QUOTE && t[i] != BACKSLASH && t[i] != NEWLINE && t[i] != RETURN then PlainEnd(t, i + 1)
    else i
  }

  /** The end of the fraction at position i: digits are not required. */
  function FractionEnd(t: Text, i: nat): (j: nat)
    requires i <= |t|
    ensures i <= j <= |t|
  {
    if i < |t| && t[i] == DOT then DigitsEnd(t, i + 1) else i
  }

  function ExponentEnd(t: Text, i: nat): (j: nat)
    requires i <= |t|
    ensures i <= j <= |t|
  {
    var e := ExponentAt(t, i);
    if e.Found? then e.next else i
  }

  /** The end of the simple token at position i, or i itself. */
  function SimpleEnd(t: Text, i: nat): (j: nat)
    requires i < |t|
    ensures i <= j <= |t|
  {
    if t[i] == QUOTE then
      var j := PlainEnd(t, i + 1);
      if j < |t| && t[j] == QUOTE then j + 1 else i
    else if WordAt(t, i).Found? then WordAt(t, i).next
    else
      var a := if t[i] == MINUS then i + 1 else i;
      var b := DigitsEnd(t, a);
      if b == a then i else ExponentEnd(t, FractionEnd(t, b))
  }

  function HideSimple(t: Text, i: nat): Text
    requires i <= |t|
    decreases |t| - i
  {
    if i == |t| then []
    else if SimpleEnd(t, i) > i then [RBRACKET] + HideSimple(t, SimpleEnd(t, i))
    else [t[i]] + HideSimple(t, i + 1)
  }

  // ----- Third replacement: opening brackets at the start, after colons and after commas go.

  /** White space of a regular expression (section 15.10.2.12 of ECMA-262, edition 5.1). */
  predicate IsSpace(c: Unit) {
    || 9 <= c <= 13 || c == 32 || c == 0xa0 || c == 0x1680 || c == 0x180e || 0x2000 <= c <= 0x200a
    || c == 0x2028 || c == 0x2029 || c == 0x202f || c == 0x205f || c == 0x3000 || c == 0xfeff
  }

  function SpaceEnd(t: Text, i: nat): (j: nat)
    requires i <= |t|
    ensures i <= j <= |t|
    ensures j < |t| ==> !IsSpace(t[j])
    decreases |t| - i
  {
    if i < |t| && IsSpace(t[i]) then SpaceEnd(t, i + 1) else i
  }

  /** The end of the longest run of opening brackets, each after any white space. */
  function OpensEnd(t: Text, i: nat): (j: nat)
    requires i <= |t|
    ensures i <= j <= |t|
    decreases |t| - i
  {
    var k := SpaceEnd(t, i);
    if k < |t| && t[k] == LBRACKET then OpensEnd(t, k + 1) else i
  }

  /** The end of what is deleted at position i, or i itself. */
  function DeletedEnd(t: Text, i: nat): (j: nat)
    requires i < |t|
    ensures i <= j <= |t|
  {
    if i == 0 && OpensEnd(t, 0) > 0 then OpensEnd(t, 0)
    else if (t[i] == COLON || t[i] == COMMA) && OpensEnd(t, i + 1) > i + 1 then OpensEnd(t, i + 1)
    else i
  }

  function DeleteOpens(t: Text, i: nat): Text
    requires i <= |t|
    decreases |t| - i
  {
    if i == |t| then []
    else if DeletedEnd(t, i) > i then DeleteOpens(t, DeletedEnd(t, i))
    else [t[i]] + DeleteOpens(t, i + 1)
  }

  // ----- The final test.

  predicate Harmless(t: Text) {
    forall i | 0 <= i < |t| ::
      t[i] == RBRACKET || t[i] == COMMA || t[i] == COLON || t[i] == LBRACE || t[i] == RBRACE || IsSpace(t[i])
  }

  predicate PassesFilter(t: Text) {
    Harmless(DeleteOpens(HideSimple(HideEscapes(t, 0), 0), 0))
  }

  // ----- Stage one leaves printed text alone.

  predicate Handled(t: Text) {
    forall i | 0 <= i < |t| :: !Mishandled(t[i])
  }

  lemma {:induction false} HexHandled(n: nat, k: nat)
    ensures Handled(HexDigits(n, k))
  {
    if k > 0 {
      HexHandled(n / 16, k - 1);
    }
  }

  lemma UnitHandled(c: Unit)
    ensures Handled(QuoteUnit(c))
  {
    Hex4(c);
    HexHandled(c, 4);
  }

  lemma {:induction false} BodyHandled(s: Text)
    ensures Handled(QuoteBody(s))
  {
    if s != [] {
      UnitHandled(s[0]);
      BodyHandled(s[1..]);
    }
  }

  lemma NumberHandled(n: Number)
    requires ValidNumber(n)
    ensures Handled(NumberText(n))
  {
    assert Handled(FractionText(n.fraction)) && Handled(ExponentText(n.exponent));
  }

  lemma TokenHandled(k: Token)
    requires ProperToken(k)
    ensures Handled(TokenText(k))
  {
    match k
    case Quoted(s) =>
      QuoteIsBody(s);
      BodyHandled(s);
    case Numeral(n) => NumberHandled(n);
    case _ =>
  }

  lemma {:induction false} RenderHandled(ks: seq<Token>)
    requires ProperTokens(ks)
    ensures Handled(Render(ks))
  {
    if ks != [] {
      TokenHandled(ks[0]);
      RenderHandled(ks[1..]);
    }
  }

  // ----- The first replacement acts inside strings only.

  /** Nothing in it ends a string or keeps the pattern for strings from matching. */
  predicate Clean(body: Text) {
    forall i | 0 <= i < |body| ::
      body[i] != QUOTE && body[i] != BACKSLASH && body[i] != NEWLINE && body[i] != RETURN
  }

  lemma {:induction false} HexIsHex(t: Text, i: nat, n: nat)
    requires i + n <= |t| && HexAt(t, i, n).Some?
    ensures forall k | i <= k < i + n :: IsHex(t[k])
  {
    if n > 0 {
      HexIsHex(t, i, n - 1);
    }
  }

  lemma HideChar(t: Text, i: nat) returns (c: Unit)
    requires i < |t| && CharAt(t, i).Found?
    ensures Clean([c]) && HideEscapes(t, i) == [c] + HideEscapes(t, CharAt(t, i).next)
  {
    c := if t[i] == BACKSLASH then AT else t[i];
    if t[i] == BACKSLASH && t[i + 1] == LOWER_U {
      HexIsHex(t, i + 2, 4);
    }
  }

  lemma {:induction false} HideString(t: Text, i: nat) returns (body: Text)
    requires i <= |t| && StringAt(t, i).Found?
    ensures Clean(body) && HideEscapes(t, i) == body + ([QUOTE] + HideEscapes(t, StringAt(t, i).next))
    decreases |t| - i
  {
    body := [];
    if t[i] != QUOTE {
      var next, stop := CharAt(t, i).next, StringAt(t, i).next;
      var c := HideChar(t, i);
      var rest := HideString(t, next);
      Associate([c], rest, [QUOTE] + HideEscapes(t, stop));
      body := [c] + rest;
    }
  }

  lemma {:induction false} CopyPlain(t: Text, i: nat, j: nat)
    requires i <= j <= |t| && forall k | i <= k < j :: t[k] != BACKSLASH
    ensures HideEscapes(t, i) == t[i..j] + HideEscapes(t, j)
    decreases j - i
  {
    if i < j {
      CopyPlain(t, i + 1, j);
      assert t[i..j] == [t[i]] + t[i + 1..j];
      Associate([t[i]], t[i + 1..j], HideEscapes(t, j));
    }
  }

  lemma WordChars(t: Text, i: nat)
    requires i <= |t| && WordAt(t, i).Found?
    ensures forall x | i <= x < WordAt(t, i).next :: t[x] > BACKSLASH
  {
    var p := WordAt(t, i);
    forall x | i <= x < p.next ensures t[x] > BACKSLASH {
      SpanAt(t, i, p.next, WordText(p.value), x - i);
    }
  }

  /** A token other than a string ends there and holds no null character and no backslash. */
  lemma PlainTokenChars(t: Text, i: nat) returns (j: nat)
    requires i < |t| && TokenAt(t, i).Found? && !TokenAt(t, i).value.Quoted?
    ensures j == TokenAt(t, i).next && forall x | i <= x < j :: t[x] != 0 && t[x] != BACKSLASH
  {
    j := TokenAt(t, i).next;
    if TokenAt(t, i).value.Numeral? {
      NumberChars(t, i);
    } else if TokenAt(t, i).value.Literal? {
      WordChars(t, i);
    }
  }

  /** It is copied. */
  lemma HidePlainToken(t: Text, i: nat)
    requires i < |t| && TokenAt(t, i).Found? && !TokenAt(t, i).value.Quoted?
    ensures var j := TokenAt(t, i).next; HideEscapes(t, i) == t[i..j] + HideEscapes(t, j)
  {
    var j := PlainTokenChars(t, i);
    CopyPlain(t, i, j);
  }

  // ----- The second replacement leaves punctuation and white space.

  /** What is left of a token. */
  function Skeleton(k: Token): Unit {
    if k.Punct? then k.c else RBRACKET
  }

  /** The text is what is left of the tokens, with white space between them. */
  predicate Skeletal(s: Text, ks: seq<Token>) {
    if s == [] then ks == []
    else if IsBlank(s[0]) then Skeletal(s[1..], ks)
    else ks != [] && s[0] == Skeleton(ks[0]) && Skeletal(s[1..], ks[1..])
  }

  lemma SkeletalCons(c: Unit, s: Text, k: Token, ks: seq<Token>)
    requires c == Skeleton(k) && !IsBlank(c) && Skeletal(s, ks)
    ensures Skeletal([c] + s, [k] + ks)
  {
    assert ([c] + s)[1..] == s && ([k] + ks)[1..] == ks;
  }

  lemma SkeletalBlank(c: Unit, s: Text, ks: seq<Token>)
    requires IsBlank(c) && Skeletal(s, ks)
    ensures Skeletal([c] + s, ks)
  {
    assert ([c] + s)[1..] == s;
  }

  lemma {:induction false} CleanEnd(t: Text, i: nat, j: nat, body: Text)
    requires Spans(t, i, j, body) && Clean(body) && j < |t| && t[j] == QUOTE
    ensures PlainEnd(t, i) == j
    decreases |body|
  {
    if body != [] {
      SpanAt(t, i, j, body, 0);
      assert t[i + 1..j] == body[1..];
      CleanEnd(t, i + 1, j, body[1..]);
    }
  }

  lemma SimpleQuoted(t: Text, i: nat, j: nat, body: Text)
    requires Spans(t, i, j, [QUOTE] + (body + [QUOTE])) && Clean(body)
    ensures i < |t| && SimpleEnd(t, i) == j
  {
    var m := SpanSplit(t, i, j, [QUOTE], body + [QUOTE]);
    var n := SpanSplit(t, m, j, body, [QUOTE]);
    SpanAt(t, i, m, [QUOTE], 0);
    SpanAt(t, n, j, [QUOTE], 0);
    CleanEnd(t, m, n, body);
  }

  lemma NoWord(t: Text, i: nat)
    requires i < |t| && t[i] < 97
    ensures WordAt(t, i).Failed?
  {
    forall w | StartsWord(t, i, w) ensures false {
      SpanAt(t, i, i + |WordText(w)|, WordText(w), 0);
    }
  }

  /** A number that can be read ends where the pattern for numbers ends. */
  lemma SimpleNumber(t: Text, i: nat)
    requires i < |t| && NumberAt(t, i).Found? && (t[i] == MINUS || IsDigit(t[i]))
    ensures SimpleEnd(t, i) == NumberAt(t, i).next
  {
    NoWord(t, i);
    var w := WholeAt(t, if t[i] == MINUS then i + 1 else i);
    assert w.Found? && w.next == DigitsEnd(t, if t[i] == MINUS then i + 1 else i);
    var f := FractionAt(t, w.next);
    assert FractionEnd(t, w.next) == f.next;
  }

  lemma NoSimple(t: Text, i: nat)
    requires i < |t| && (IsPunct(t[i]) || IsBlank(t[i]))
    ensures HideSimple(t, i) == [t[i]] + HideSimple(t, i + 1)
  {
    forall w | StartsWord(t, i, w) ensures false {
      SpanAt(t, i, i + |WordText(w)|, WordText(w), 0);
    }
    assert SimpleEnd(t, i) == i;
  }

  /** Position k of the text without escapes is where position i of the text went. */
  predicate Hides(t: Text, i: nat, h: Text, k: nat) {
    i <= |t| && Spans(h, k, |h|, HideEscapes(t, i))
  }

  lemma ClearAfter(t: Text, i: nat, h: Text, k: nat)
    requires Hides(t, i, h, k) && Lex(t, i).Some? && Clear(t, i)
    ensures Clear(h, k)
  {
    if k < |h| {
      ReadsOn(t, i);
      SpanAt(h, k, |h|, HideEscapes(t, i), 0);
    }
  }

  lemma SimpleString(t: Text, i: nat, h: Text, k: nat) returns (m: nat)
    requires Hides(t, i, h, k) && i < |t| && t[i] == QUOTE && StringAt(t, i + 1).Found?
    ensures k < m <= |h| && Hides(t, StringAt(t, i + 1).next, h, m) && SimpleEnd(h, k) == m
  {
    var rest := HideEscapes(t, StringAt(t, i + 1).next);
    var body := HideString(t, i + 1);
    Associate(body, [QUOTE], rest);
    Associate([QUOTE], body + [QUOTE], rest);
    m := SpanSplit(h, k, |h|, [QUOTE] + (body + [QUOTE]), rest);
    SimpleQuoted(h, k, m, body);
  }

  lemma SimplePlain(t: Text, i: nat, h: Text, k: nat) returns (m: nat)
    requires Hides(t, i, h, k) && i < |t| && TokenAt(t, i).Found? && t[i] != QUOTE && !IsPunct(t[i])
    requires Lex(t, TokenAt(t, i).next).Some?
    ensures k < m <= |h| && Hides(t, TokenAt(t, i).next, h, m) && SimpleEnd(h, k) == m
  {
    var p := TokenAt(t, i);
    HidePlainToken(t, i);
    m := SpanSplit(h, k, |h|, t[i..p.next], HideEscapes(t, p.next));
    if p.value.Numeral? {
      NumberIsClear(t, i);
      ClearAfter(t, p.next, h, m);
      NumberMoves(t, i, h, k, m);
      SimpleNumber(h, k);
    } else {
      ReadWord(h, k, m, p.value.w);
    }
  }

  /** A string, number or word shrinks to a closing bracket. */
  lemma SimpleToken(t: Text, i: nat, h: Text, k: nat) returns (m: nat)
    requires Hides(t, i, h, k) && i < |t| && TokenAt(t, i).Found? && !IsPunct(t[i])
    requires Lex(t, TokenAt(t, i).next).Some?
    ensures k < m <= |h| && Hides(t, TokenAt(t, i).next, h, m)
    ensures HideSimple(h, k) == [RBRACKET] + HideSimple(h, m)
  {
    if t[i] == QUOTE {
      m := SimpleString(t, i, h, k);
    } else {
      m := SimplePlain(t, i, h, k);
    }
  }

  lemma MarkStays(t: Text, i: nat, h: Text, k: nat)
    requires Hides(t, i, h, k) && i < |t| && (IsPunct(t[i]) || IsBlank(t[i]))
    ensures k < |h| && h[k] == t[i] && Hides(t, i + 1, h, k + 1)
    ensures HideSimple(h, k) == [t[i]] + HideSimple(h, k + 1)
  {
    CopyPlain(t, i, i + 1);
    var m := SpanSplit(h, k, |h|, t[i..i + 1], HideEscapes(t, i + 1));
    SpanAt(h, k, m, t[i..i + 1], 0);
    NoSimple(h, k);
  }

  /** After two replacements the tokens of a text have shrunk to marks. */
  lemma {:induction false} LexIsSkeleton(t: Text, i: nat, h: Text, k: nat)
    requires Hides(t, i, h, k) && Lex(t, i).Some?
    ensures Skeletal(HideSimple(h, k), Lex(t, i).value)
    decreases |t| - i
  {
    if i < |t| {
      if IsBlank(t[i]) {
        MarkStays(t, i, h, k);
        LexIsSkeleton(t, i + 1, h, k + 1);
        SkeletalBlank(t[i], HideSimple(h, k + 1), Lex(t, i).value);
      } else {
        var p := TokenAt(t, i);
        var rest := Lex(t, p.next).value;
        var m := k + 1;
        if IsPunct(t[i]) {
          MarkStays(t, i, h, k);
        } else {
          m := SimpleToken(t, i, h, k);
        }
        LexIsSkeleton(t, p.next, h, m);
        SkeletalCons(Skeleton(p.value), HideSimple(h, m), p.value, rest);
      }
    }
  }

  // ----- Every opening bracket is reached by a chain from the start, a colon or a comma.

  /** Whether each opening bracket from position i on comes, white space apart, right after a
      colon, a comma, another opening bracket or, if the chain is live, position i. */
  predicate Chained(t: Text, i: nat, live: bool)
    requires i <= |t|
    decreases |t| - i
  {
    if i == |t| then true
    else if IsSpace(t[i]) then Chained(t, i + 1, live)
    else if t[i] == LBRACKET then live && Chained(t, i + 1, true)
    else Chained(t, i + 1, t[i] == COLON || t[i] == COMMA)
  }

  lemma {:induction false} SkipSpace(t: Text, i: nat, live: bool)
    requires i <= |t|
    ensures Chained(t, i, live) == Chained(t, SpaceEnd(t, i), live)
    decreases |t| - i
  {
    if i < |t| && IsSpace(t[i]) {
      SkipSpace(t, i + 1, live);
    }
  }

  /** Past the longest run of opening brackets the chain is broken. */
  lemma {:induction false} RunEnds(t: Text, i: nat)
    requires i <= |t| && Chained(t, i, true)
    ensures Chained(t, OpensEnd(t, i), false)
    decreases |t| - i
  {
    var k := SpaceEnd(t, i);
    SkipSpace(t, i, true);
    if k < |t| && t[k] == LBRACKET {
      RunEnds(t, k + 1);
    } else {
      SkipSpace(t, i, false);
    }
  }

  /** What is left of a chained text holds no opening bracket and no new character. */
  lemma {:induction false} AllOpensDeleted(t: Text, i: nat)
    requires i <= |t| && Chained(t, i, false) && (i == 0 ==> OpensEnd(t, 0) == 0)
    ensures forall c | c in DeleteOpens(t, i) :: c != LBRACKET && c in t
    decreases |t| - i
  {
    if i < |t| {
      if t[i] == COLON || t[i] == COMMA {
        RunEnds(t, i + 1);
      }
      var e := DeletedEnd(t, i);
      if e > i {
        AllOpensDeleted(t, e);
      } else {
        AllOpensDeleted(t, i + 1);
      }
    }
  }

  lemma ChainedIsEmptied(t: Text)
    requires Chained(t, 0, true)
    ensures forall c | c in DeleteOpens(t, 0) :: c != LBRACKET && c in t
  {
    RunEnds(t, 0);
    AllOpensDeleted(t, OpensEnd(t, 0));
  }

  /** The chain along tokens. */
  datatype Chain = Live | Broken | Stuck

  function Link(k: Token, chain: Chain): Chain {
    if chain.Stuck? || k.Blank? then chain
    else if k == Punct(LBRACKET) then (if chain.Live? then Live else Stuck)
    else if k == Punct(COLON) || k == Punct(COMMA) then Live
    else Broken
  }

  function Follow(ks: seq<Token>, chain: Chain): Chain {
    if ks == [] then chain else Follow(ks[1..], Link(ks[0], chain))
  }

  lemma {:induction false} FollowAppend(ks: seq<Token>, ls: seq<Token>, chain: Chain)
    ensures Follow(ks + ls, chain) == Follow(ls, Follow(ks, chain))
    decreases |ks|
  {
    if ks == [] {
      assert ks + ls == ls;
    } else {
      assert (ks + ls)[1..] == ks[1..] + ls;
      FollowAppend(ks[1..], ls, Link(ks[0], chain));
    }
  }

  lemma FollowFirst(k: Token, ks: seq<Token>, chain: Chain)
    ensures Follow([k] + ks, chain) == Follow(ks, Link(k, chain))
  {
    assert ([k] + ks)[1..] == ks;
  }

  lemma FollowOne(k: Token, chain: Chain)
    ensures Follow([k], chain) == Link(k, chain)
  {
    assert [k][1..] == [];
  }

  lemma FollowBreak(gap: Text, ks: seq<Token>, chain: Chain)
    ensures Follow(Break(gap) + ks, chain) == Follow(ks, chain)
  {
    if gap == [] {
      assert Break(gap) + ks == ks;
    } else {
      FollowFirst(Blank(NewLine(gap)), ks, chain);
    }
  }

  lemma FollowBracketed(open: Unit, inner: seq<Token>, close: Unit, gap: Text, mind: Text, chain: Chain)
    requires close == RBRACKET || close == RBRACE
    requires Follow(inner, Link(Punct(open), chain)) == Broken
    ensures Follow(Bracketed(open, inner, close, gap, mind), chain) == Broken
  {
    var tail := Return(gap, mind) + [Punct(close)];
    FollowFirst(Punct(open), Break(gap) + (inner + tail), chain);
    FollowBreak(gap, inner + tail, Link(Punct(open), chain));
    FollowAppend(inner, tail, Link(Punct(open), chain));
    FollowOne(Punct(close), Broken);
    if gap == [] {
      assert tail == [Punct(close)];
    } else {
      FollowFirst(Blank(NewLine(mind)), [Punct(close)], Broken);
    }
  }

  lemma FollowSeparated(first: seq<Token>, gap: Text, others: seq<Token>, chain: Chain)
    requires Follow(first, chain) == Broken
    ensures Follow(first + ([Punct(COMMA)] + (Break(gap) + others)), chain) == Follow(others, Live)
  {
    FollowAppend(first, [Punct(COMMA)] + (Break(gap) + others), chain);
    FollowFirst(Punct(COMMA), Break(gap) + others, Broken);
    FollowBreak(gap, others, Live);
  }

  lemma FollowKey(key: Text, gap: Text, ks: seq<Token>, chain: Chain)
    requires !chain.Stuck?
    ensures Follow(KeyTokens(key, gap) + ks, chain) == Follow(ks, Live)
  {
    FollowAppend(KeyTokens(key, gap), ks, chain);
    FollowFirst(Quoted(key), ColonTokens(gap), chain);
    FollowOne(Punct(COLON), Broken);
    FollowOne(Blank([SPACE]), Live);
    FollowFirst(Punct(COLON), [Blank([SPACE])], Broken);
    assert [Punct(COLON), Blank([SPACE])] == [Punct(COLON)] + [Blank([SPACE])];
  }

  /** A value printed where the chain is live keeps every bracket in it, and breaks it. */
  lemma {:induction false} FollowValue(v: Value, gap: Text, indent: Text)
    ensures Follow(Tokens(v, gap, indent), Live) == Broken
    decreases v
  {
    match v
    case Null => FollowOne(Literal(NullWord), Live);
    case Boolean(b) => FollowOne(Literal(if b then TrueWord else FalseWord), Live);
    case Num(n) => FollowOne(Numeral(n), Live);
    case NotFinite => FollowOne(Literal(NullWord), Live);
    case Str(s) => FollowOne(Quoted(s), Live);
    case Arr(elements) =>
      if elements == [] {
        FollowPair(LBRACKET, RBRACKET);
      } else {
        FollowElements(elements, gap + indent, indent);
        FollowBracketed(LBRACKET, ElementTokens(elements, gap + indent, indent), RBRACKET, gap + indent, gap, Live);
      }
    case Obj(members) =>
      if members == [] {
        FollowPair(LBRACE, RBRACE);
      } else {
        FollowMembers(members, gap + indent, indent, Broken);
        FollowBracketed(LBRACE, MemberTokens(members, gap + indent, indent), RBRACE, gap + indent, gap, Live);
      }
  }

  lemma FollowPair(open: Unit, close: Unit)
    requires close == RBRACKET || close == RBRACE
    ensures Follow([Punct(open), Punct(close)], Live) == Broken
  {
    FollowFirst(Punct(open), [Punct(close)], Live);
    FollowOne(Punct(close), Link(Punct(open), Live));
    assert [Punct(open), Punct(close)] == [Punct(open)] + [Punct(close)];
  }

  lemma {:induction false} FollowElements(elements: seq<Value>, gap: Text, indent: Text)
    requires elements != []
    ensures Follow(ElementTokens(elements, gap, indent), Live) == Broken
    decreases elements
  {
    FollowValue(elements[0], gap, indent);
    if |elements| > 1 {
      FollowElements(elements[1..], gap, indent);
      FollowSeparated(Tokens(elements[0], gap, indent), gap, ElementTokens(elements[1..], gap, indent), Live);
    }
  }

  lemma {:induction false} FollowMembers(members: seq<Member>, gap: Text, indent: Text, chain: Chain)
    requires members != [] && !chain.Stuck?
    ensures Follow(MemberTokens(members, gap, indent), chain) == Broken
    decreases members
  {
    FollowValue(members[0].value, gap, indent);
    FollowKey(members[0].key, gap, Tokens(members[0].value, gap, indent), chain);
    if |members| > 1 {
      FollowMembers(members[1..], gap, indent, Live);
      FollowSeparated(KeyTokens(members[0].key, gap) + Tokens(members[0].value, gap, indent), gap,
                      MemberTokens(members[1..], gap, indent), chain);
    }
  }

  lemma {:induction false} StaysStuck(ks: seq<Token>)
    ensures Follow(ks, Stuck) == Stuck
  {
    if ks != [] {
      StaysStuck(ks[1..]);
    }
  }

  lemma {:induction false} SkeletonChained(t: Text, i: nat, ks: seq<Token>, live: bool)
    requires i <= |t| && Skeletal(t[i..], ks)
    requires forall k | k in ks :: !k.Blank? && (k.Punct? ==> IsPunct(k.c))
    requires Follow(ks, if live then Live else Broken) != Stuck
    ensures Chained(t, i, live)
    decreases |t| - i
  {
    if i < |t| {
      assert t[i..][1..] == t[i + 1..];
      if IsBlank(t[i]) {
        SkeletonChained(t, i + 1, ks, live);
      } else {
        var chain := Link(ks[0], if live then Live else Broken);
        if chain.Stuck? {
          StaysStuck(ks[1..]);
        }
        assert ks[0] in ks;
        SkeletonChained(t, i + 1, ks[1..], chain.Live?);
      }
    }
  }

  predicate OnlyMarks(t: Text) {
    forall i | 0 <= i < |t| :: IsPunct(t[i]) || IsBlank(t[i])
  }

  lemma {:induction false} SkeletonOnlyMarks(s: Text, ks: seq<Token>)
    requires Skeletal(s, ks) && forall k | k in ks :: k.Punct? ==> IsPunct(k.c)
    ensures OnlyMarks(s)
  {
    if s != [] {
      SkeletonOnlyMarks(s[1..], if IsBlank(s[0]) then ks else ks[1..]);
      assert !IsBlank(s[0]) ==> ks[0] in ks;
    }
  }

  /** The lexer finds no white space, and only marks of punctuation. */
  lemma {:induction false} LexedTokens(t: Text, i: nat)
    requires i <= |t| && Lex(t, i).Some?
    ensures forall k | k in Lex(t, i).value :: !k.Blank? && (k.Punct? ==> IsPunct(k.c))
    decreases |t| - i
  {
    if i < |t| {
      LexedTokens(t, if IsBlank(t[i]) then i + 1 else TokenAt(t, i).next);
    }
  }

  lemma SkeletonPasses(s: Text, v: Value)
    requires Skeletal(s, Compact(v)) && forall k | k in Compact(v) :: !k.Blank? && (k.Punct? ==> IsPunct(k.c))
    ensures Harmless(DeleteOpens(s, 0))
  {
    FollowValue(v, [], []);
    assert s[0..] == s;
    SkeletonChained(s, 0, Compact(v), true);
    ChainedIsEmptied(s);
    SkeletonOnlyMarks(s, Compact(v));
    var left := DeleteOpens(s, 0);
    forall i | 0 <= i < |left|
      ensures left[i] != LBRACKET && (IsPunct(left[i]) || IsBlank(left[i]))
    {
      assert left[i] in left;
    }
  }

  /** The filter accepts every JSON text. */
  lemma ValidPasses(t: Text, v: Value)
    requires Parse(t) == Some(v)
    ensures PassesFilter(t)
  {
    ParsesExactly(t, v);
    LexedTokens(t, 0);
    var h := HideEscapes(t, 0);
    assert h[0..|h|] == h;
    LexIsSkeleton(t, 0, h, 0);
    SkeletonPasses(HideSimple(h, 0), v);
  }
}
