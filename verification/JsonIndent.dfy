/** Indentation does not change what a printed text means (functions str and stringify of
    www/js/json2.js). */
module JsonIndent {
  import opened Wrappers
  import opened JsonText
  import opened JsonPrinter
  import opened JsonParser
  import opened JsonRoundTrip

  // ----- The parser accepts nothing but the tokens of the value it returns.

  lemma SpanJoin<T>(t: seq<T>, i: nat, m: nat, j: nat, u: seq<T>, v: seq<T>)
    requires Spans(t, i, m, u) && Spans(t, m, j, v)
    ensures Spans(t, i, j, u + v)
  {
    assert t[i..j] == t[i..m] + t[m..j];
  }

  lemma SpanOne<T>(t: seq<T>, i: nat)
    requires i < |t|
    ensures Spans(t, i, i + 1, [t[i]])
  {}

  lemma {:induction false} ValueSound(ts: seq<Token>, i: nat)
    requires i <= |ts| && ValueAt(ts, i).Found?
    ensures var p := ValueAt(ts, i); Spans(ts, i, p.next, Compact(p.value)) && Normal(p.value) == p.value
    decreases |ts| - i, 0
  {
    var p := ValueAt(ts, i);
    SpanOne(ts, i);
    if p.value.Arr? {
      if p.value.elements == [] {
        SpanOne(ts, i + 1);
        SpanJoin(ts, i, i + 1, i + 2, [Punct(LBRACKET)], [Punct(RBRACKET)]);
        assert [Punct(LBRACKET), Punct(RBRACKET)] == [Punct(LBRACKET)] + [Punct(RBRACKET)];
      } else {
        ElementsSound(ts, i + 1);
        CompactArr(p.value.elements);
        SpanJoin(ts, i, i + 1, p.next, [Punct(LBRACKET)], CompactElements(p.value.elements) + [Punct(RBRACKET)]);
      }
    } else if p.value.Obj? {
      if p.value.members == [] {
        SpanOne(ts, i + 1);
        SpanJoin(ts, i, i + 1, i + 2, [Punct(LBRACE)], [Punct(RBRACE)]);
        assert [Punct(LBRACE), Punct(RBRACE)] == [Punct(LBRACE)] + [Punct(RBRACE)];
      } else {
        MembersSound(ts, i + 1);
        CompactObj(p.value.members);
        SpanJoin(ts, i, i + 1, p.next, [Punct(LBRACE)], CompactMembers(p.value.members) + [Punct(RBRACE)]);
      }
    }
  }

  lemma {:induction false} ElementsSound(ts: seq<Token>, i: nat)
    requires i <= |ts| && ElementsAt(ts, i).Found?
    ensures var p := ElementsAt(ts, i);
            && Spans(ts, i, p.next, CompactElements(p.value) + [Punct(RBRACKET)])
            && NormalElements(p.value) == p.value
    decreases |ts| - i, 1
  {
    var v, p := ValueAt(ts, i), ElementsAt(ts, i);
    ValueSound(ts, i);
    if Is(ts, v.next, RBRACKET) {
      SpanOne(ts, v.next);
      SpanJoin(ts, i, v.next, v.next + 1, Compact(v.value), [Punct(RBRACKET)]);
    } else {
      ElementsSound(ts, v.next + 1);
      JoinElements(ts, i, v.next, p.next, p.value);
    }
  }

  /** The first element, a comma and the elements after it. */
  lemma JoinElements(ts: seq<Token>, i: nat, m: nat, j: nat, elements: seq<Value>)
    requires |elements| > 1 && Spans(ts, i, m, Compact(elements[0])) && Is(ts, m, COMMA)
    requires Spans(ts, m + 1, j, CompactElements(elements[1..]) + [Punct(RBRACKET)])
    ensures Spans(ts, i, j, CompactElements(elements) + [Punct(RBRACKET)])
  {
    var rest := CompactElements(elements[1..]) + [Punct(RBRACKET)];
    SpanOne(ts, m);
    SpanJoin(ts, m, m + 1, j, [Punct(COMMA)], rest);
    SpanJoin(ts, i, m, j, Compact(elements[0]), [Punct(COMMA)] + rest);
    ElementsClosed(elements);
  }

  lemma {:induction false} MemberSound(ts: seq<Token>, i: nat)
    requires i + 2 <= |ts| && ts[i].Quoted? && Is(ts, i + 1, COLON) && ValueAt(ts, i + 2).Found?
    ensures var v := ValueAt(ts, i + 2);
            Spans(ts, i, v.next, CompactMembers([Member(ts[i].s, v.value)])) && Normal(v.value) == v.value
    decreases |ts| - i, 0
  {
    var v := ValueAt(ts, i + 2);
    ValueSound(ts, i + 2);
    CompactMember(Member(ts[i].s, v.value));
    assert ts[i..i + 2] == [ts[i], ts[i + 1]];
    SpanJoin(ts, i, i + 2, v.next, [ts[i], ts[i + 1]], Compact(v.value));
  }

  /** The first member, a comma and the members after it. */
  lemma JoinMembers(ts: seq<Token>, i: nat, m: nat, j: nat, members: seq<Member>)
    requires |members| > 1 && Spans(ts, i, m, CompactMembers(members[..1])) && Is(ts, m, COMMA)
    requires Spans(ts, m + 1, j, CompactMembers(members[1..]) + [Punct(RBRACE)])
    ensures Spans(ts, i, j, CompactMembers(members) + [Punct(RBRACE)])
  {
    var first, rest := CompactMembers(members[..1]), CompactMembers(members[1..]) + [Punct(RBRACE)];
    SpanOne(ts, m);
    SpanJoin(ts, m, m + 1, j, [Punct(COMMA)], rest);
    SpanJoin(ts, i, m, j, first, [Punct(COMMA)] + rest);
    MembersClosed(members);
  }

  lemma {:induction false} MembersSound(ts: seq<Token>, i: nat)
    requires i <= |ts| && MembersAt(ts, i).Found?
    ensures var p := MembersAt(ts, i);
            && Spans(ts, i, p.next, CompactMembers(p.value) + [Punct(RBRACE)])
            && NormalMembers(p.value) == p.value
    decreases |ts| - i, 1
  {
    var v, p := ValueAt(ts, i + 2), MembersAt(ts, i);
    var first := Member(ts[i].s, v.value);
    MemberSound(ts, i);
    if Is(ts, v.next, RBRACE) {
      SpanOne(ts, v.next);
      SpanJoin(ts, i, v.next, v.next + 1, CompactMembers([first]), [Punct(RBRACE)]);
    } else {
      MembersSound(ts, v.next + 1);
      assert p.value[..1] == [first] && p.value[1..] == MembersAt(ts, v.next + 1).value;
      JoinMembers(ts, i, v.next, p.next, p.value);
    }
  }

  /** A text is read as a value exactly when its tokens are the ones printed for that value. */
  lemma ParsesExactly(t: Text, v: Value)
    ensures Parse(t) == Some(v) <==> Lex(t, 0) == Some(Compact(v)) && Finite(v)
  {
    NormalExactly(v);
    if Parse(t) == Some(v) {
      var ts := Lex(t, 0).value;
      ValueSound(ts, 0);
      assert ts[0..|ts|] == ts;
    }
    if Lex(t, 0) == Some(Compact(v)) {
      ReadValue(Compact(v), 0, |Compact(v)|, v);
    }
  }

  // ----- Which indentations are safe.

  /** The number of characters, from position i on, that are not white space. */
  function Solids(t: Text, i: nat): nat
    requires i <= |t|
    decreases |t| - i
  {
    if i == |t| then 0 else (if IsBlank(t[i]) then 0 else 1) + Solids(t, i + 1)
  }

  lemma {:induction false} SolidsOf(t: Text, i: nat, j: nat, w: Text)
    requires Spans(t, i, j, w)
    ensures Solids(t, i) == Solids(w, 0) + Solids(t, j)
    decreases |w|
  {
    if w != [] {
      SpanAt(t, i, j, w, 0);
      assert t[i + 1..j] == w[1..];
      SolidsOf(t, i + 1, j, w[1..]);
      assert w[1..|w|] == w[1..];
      SolidsOf(w, 1, |w|, w[1..]);
    }
  }

  lemma {:induction false} NoSolids(t: Text, i: nat)
    requires i <= |t| && Solids(t, i) == 0
    ensures forall k | i <= k < |t| :: IsBlank(t[k])
    decreases |t| - i
  {
    if i < |t| {
      NoSolids(t, i + 1);
    }
  }

  /** Every mark of punctuation takes one character. */
  lemma {:induction false} MarksAreSolid(t: Text, i: nat)
    requires i <= |t| && Lex(t, i).Some? && forall k | k in Lex(t, i).value :: k.Punct?
    ensures Solids(t, i) == |Lex(t, i).value|
    decreases |t| - i
  {
    if i < |t| {
      if IsBlank(t[i]) {
        MarksAreSolid(t, i + 1);
      } else {
        var k := TokenAt(t, i);
        var rest := Lex(t, k.next).value;
        assert Lex(t, i).value == [k.value] + rest;
        assert k.value in Lex(t, i).value && forall x | x in rest :: x in Lex(t, i).value;
        MarksAreSolid(t, k.next);
      }
    }
  }

  const NEST := Arr([Arr([])])

  lemma PrintNest(indent: Text)
    requires indent != []
    ensures Print(NEST, [], indent) ==
            [LBRACKET, NEWLINE] + (indent + [LBRACKET, RBRACKET, NEWLINE, RBRACKET])
  {
    assert [] + indent == indent;
    assert PrintElements([Arr([])], indent, indent) == [[LBRACKET, RBRACKET]];
  }

  lemma NestNeedsBlank(indent: Text)
    requires indent != [] && Parse(Print(NEST, [], indent)) == Some(NEST)
    ensures AllBlank(indent)
  {
    var t := Print(NEST, [], indent);
    PrintNest(indent);
    ParsesExactly(t, NEST);
    CompactArr([Arr([])]);
    assert CompactElements([Arr([])]) == [Punct(LBRACKET), Punct(RBRACKET)];
    MarksAreSolid(t, 0);
    NestSolids(t, indent);
    NoSolids(indent, 0);
  }

  lemma NestSolids(t: Text, indent: Text)
    requires t == [LBRACKET, NEWLINE] + (indent + [LBRACKET, RBRACKET, NEWLINE, RBRACKET])
    ensures Solids(t, 0) == 4 + Solids(indent, 0)
  {
    var head, tail := [LBRACKET, NEWLINE], [LBRACKET, RBRACKET, NEWLINE, RBRACKET];
    assert t[0..|t|] == t;
    var m := SpanSplit(t, 0, |t|, head, indent + tail);
    var n := SpanSplit(t, m, |t|, indent, tail);
    SolidsOf(t, 0, m, head);
    SolidsOf(t, m, n, indent);
    SolidsOf(t, n, |t|, tail);
    assert Solids(head, 2) == 0 && Solids(head, 1) == 0 && Solids(head, 0) == 1;
    assert Solids(tail, 4) == 0 && Solids(tail, 3) == 1 && Solids(tail, 2) == 1 && Solids(tail, 1) == 2;
  }

  /** Every finite value is read back unchanged exactly when the indentation is white space. */
  lemma SafeIndentExactly(indent: Text)
    ensures (forall v | Proper(v) && Finite(v) :: Parse(Print(v, [], indent)) == Some(v)) <==> AllBlank(indent)
  {
    if AllBlank(indent) {
      forall v | Proper(v) && Finite(v) ensures Parse(Print(v, [], indent)) == Some(v) {
        RoundTripExactly(v, indent);
      }
    } else if Parse(Print(NEST, [], indent)) == Some(NEST) {
      NestNeedsBlank(indent);
    } else {
      assert Proper(NEST) && Finite(NEST);
    }
  }

  // ----- White space removed outside strings.

  /** The text from position i on, without the white space outside string literals. */
  function Strip(t: Text, i: nat, quoted: bool): Text
    requires i <= |t|
    decreases |t| - i
  {
    if i == |t| then []
    else if !quoted then
      if IsBlank(t[i]) then Strip(t, i + 1, false) else [t[i]] + Strip(t, i + 1, t[i] == QUOTE)
    else if t[i] == BACKSLASH && i + 1 < |t| then [t[i], t[i + 1]] + Strip(t, i + 2, true)
    else [t[i]] + Strip(t, i + 1, t[i] != QUOTE)
  }

  /** A character that is copied and does not start or end a string. */
  predicate Ordinary(c: Unit, quoted: bool) {
    c != QUOTE && (if quoted then c != BACKSLASH else !IsBlank(c))
  }

  predicate AllOrdinary(t: Text, quoted: bool) {
    forall i | 0 <= i < |t| :: Ordinary(t[i], quoted)
  }

  lemma {:induction false} StripOrdinary(t: Text, i: nat, j: nat, w: Text, quoted: bool)
    requires Spans(t, i, j, w) && AllOrdinary(w, quoted)
    ensures Strip(t, i, quoted) == w + Strip(t, j, quoted)
    decreases |w|
  {
    if w != [] {
      SpanAt(t, i, j, w, 0);
      assert t[i + 1..j] == w[1..];
      StripOrdinary(t, i + 1, j, w[1..], quoted);
      assert w == [w[0]] + w[1..];
    }
  }

  lemma {:induction false} StripBlank(t: Text, i: nat, j: nat, w: Text)
    requires Spans(t, i, j, w) && AllBlank(w)
    ensures Strip(t, i, false) == Strip(t, j, false)
    decreases |w|
  {
    if w != [] {
      SpanAt(t, i, j, w, 0);
      assert t[i + 1..j] == w[1..];
      StripBlank(t, i + 1, j, w[1..]);
    }
  }

  lemma StripEscape(t: Text, i: nat, j: nat, w: Text)
    requires Spans(t, i, j, w) && |w| == 2 && w[0] == BACKSLASH
    ensures Strip(t, i, true) == w + Strip(t, j, true)
  {
    SpanAt(t, i, j, w, 0);
    SpanAt(t, i, j, w, 1);
  }

  lemma StripUnicode(t: Text, i: nat, j: nat, digits: Text)
    requires Spans(t, i, j, [BACKSLASH, LOWER_U] + digits) && AllOrdinary(digits, true)
    ensures Strip(t, i, true) == [BACKSLASH, LOWER_U] + digits + Strip(t, j, true)
  {
    var m := SpanSplit(t, i, j, [BACKSLASH, LOWER_U], digits);
    StripEscape(t, i, m, [BACKSLASH, LOWER_U]);
    StripOrdinary(t, m, j, digits, true);
    Associate([BACKSLASH, LOWER_U], digits, Strip(t, j, true));
  }

  lemma StripUnit(t: Text, i: nat, j: nat, c: Unit)
    requires Spans(t, i, j, QuoteUnit(c))
    ensures Strip(t, i, true) == QuoteUnit(c) + Strip(t, j, true)
  {
    if !Escapable(c) {
      StripOrdinary(t, i, j, [c], true);
    } else if ShortEscape(c) >= 0 {
      StripEscape(t, i, j, QuoteUnit(c));
    } else {
      Hex4(c);
      HexOrdinary(c, 4);
      StripUnicode(t, i, j, HexDigits(c, 4));
    }
  }

  lemma {:induction false} HexOrdinary(n: nat, k: nat)
    ensures AllOrdinary(HexDigits(n, k), true)
  {
    if k > 0 {
      HexOrdinary(n / 16, k - 1);
    }
  }

  lemma {:induction false} StripBody(t: Text, i: nat, j: nat, s: Text)
    requires Spans(t, i, j, QuoteBody(s) + [QUOTE])
    ensures Strip(t, i, true) == QuoteBody(s) + ([QUOTE] + Strip(t, j, false))
    decreases |s|
  {
    if s == [] {
      SpanAt(t, i, j, [QUOTE], 0);
    } else {
      BodyStarts(s);
      var m := SpanSplit(t, i, j, QuoteUnit(s[0]), QuoteBody(s[1..]) + [QUOTE]);
      StripUnit(t, i, m, s[0]);
      StripBody(t, m, j, s[1..]);
      Associate(QuoteUnit(s[0]), QuoteBody(s[1..]), [QUOTE] + Strip(t, j, false));
    }
  }

  lemma QuoteStarts(s: Text)
    ensures Quote(s) == [QUOTE] + (QuoteBody(s) + [QUOTE])
  {
    QuoteIsBody(s);
  }

  lemma StripQuoted(t: Text, i: nat, j: nat, s: Text)
    requires Spans(t, i, j, Quote(s))
    ensures Strip(t, i, false) == Quote(s) + Strip(t, j, false)
  {
    QuoteStarts(s);
    var m := SpanSplit(t, i, j, [QUOTE], QuoteBody(s) + [QUOTE]);
    SpanAt(t, i, m, [QUOTE], 0);
    StripBody(t, m, j, s);
    Associate(QuoteBody(s), [QUOTE], Strip(t, j, false));
    Associate([QUOTE], QuoteBody(s) + [QUOTE], Strip(t, j, false));
  }

  lemma NumberOrdinary(n: Number)
    requires ValidNumber(n)
    ensures AllOrdinary(NumberText(n), false)
  {
    assert AllOrdinary(FractionText(n.fraction), false);
    assert AllOrdinary(ExponentText(n.exponent), false);
  }

  lemma StripToken(t: Text, i: nat, j: nat, k: Token)
    requires Spans(t, i, j, TokenText(k)) && ProperToken(k)
    ensures Strip(t, i, false) == (if k.Blank? then [] else TokenText(k)) + Strip(t, j, false)
  {
    match k
    case Punct(c) => StripOrdinary(t, i, j, [c], false);
    case Literal(w) => StripOrdinary(t, i, j, WordText(w), false);
    case Numeral(n) =>
      NumberOrdinary(n);
      StripOrdinary(t, i, j, NumberText(n), false);
    case Quoted(s) => StripQuoted(t, i, j, s);
    case Blank(w) => StripBlank(t, i, j, w);
  }

  lemma {:induction false} StripRender(t: Text, i: nat, ks: seq<Token>)
    requires Spans(t, i, |t|, Render(ks)) && ProperTokens(ks)
    ensures Strip(t, i, false) == Render(Marks(ks))
    decreases |ks|
  {
    if ks != [] {
      var j := SpanSplit(t, i, |t|, TokenText(ks[0]), Render(ks[1..]));
      StripToken(t, i, j, ks[0]);
      StripRender(t, j, ks[1..]);
      if !ks[0].Blank? {
        RenderFirst(ks[0], Marks(ks[1..]));
      }
    }
  }

  /** Removing the white space outside string literals from an indented text gives the text
      printed without indentation. */
  lemma IndentIsWhiteSpace(v: Value, indent: Text)
    requires Proper(v) && AllBlank(indent)
    ensures Strip(Print(v, [], indent), 0, false) == Print(v, [], [])
  {
    var t := Print(v, [], indent);
    PrintIsTokens(v, [], indent);
    PrintIsTokens(v, [], []);
    TokensReadable(v, [], indent);
    assert t[0..|t|] == t;
    StripRender(t, 0, Tokens(v, [], indent));
    MarksAreCompact(v, [], indent);
  }
}
