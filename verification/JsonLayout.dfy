/** Where indented texts hold white space, and how much (functions str and stringify of www/js/json2.js). */
module JsonLayout {
  import opened Wrappers
  import opened JsonText
  import opened JsonPrinter
  import opened JsonParser
  import opened JsonRoundTrip

  // ----- The reference: white space by the marks around it.

  predicate Opens(k: Token) {
    k == Punct(LBRACKET) || k == Punct(LBRACE)
  }

  predicate Closes(k: Token) {
    k == Punct(RBRACKET) || k == Punct(RBRACE)
  }

  function Repeat(indent: Text, depth: nat): Text {
    if depth == 0 then [] else Repeat(indent, depth - 1) + indent
  }

  /** A line feed and so many indentations. */
  function LineStart(indent: Text, depth: nat): Token {
    Blank([NEWLINE] + Repeat(indent, depth))
  }

  function Less(depth: nat): nat {
    if depth > 0 then depth - 1 else 0
  }

  /** How many brackets are open after a token. */
  function Deeper(k: Token, depth: nat): nat {
    if Opens(k) then depth + 1 else if Closes(k) then Less(depth) else depth
  }

  /** The white space before the i-th token, with so many brackets open: one space after a colon;
      a new line after a comma and after an opening bracket, unless it is closed at once, and
      before a closing bracket; nothing else, and none at all without an indentation. */
  function Lead(ks: seq<Token>, i: nat, depth: nat, indent: Text): seq<Token>
    requires i < |ks|
  {
    if i == 0 || indent == [] then []
    else if ks[i - 1] == Punct(COLON) then [Blank([SPACE])]
    else if Opens(ks[i - 1]) && Closes(ks[i]) then []
    else if Closes(ks[i]) then [LineStart(indent, Less(depth))]
    else if Opens(ks[i - 1]) || ks[i - 1] == Punct(COMMA) then [LineStart(indent, depth)]
    else []
  }

  /** The tokens from the i-th on with the white space between them. */
  function Laid(ks: seq<Token>, i: nat, depth: nat, indent: Text): seq<Token>
    requires i <= |ks|
    decreases |ks| - i
  {
    if i == |ks| then []
    else Lead(ks, i, depth, indent) + ([ks[i]] + Laid(ks, i + 1, Deeper(ks[i], depth), indent))
  }

  /** The tokens from the i-th to the j-th are laid as the given row, after the white space before it. */
  predicate LaidAs(ks: seq<Token>, i: nat, j: nat, depth: nat, indent: Text, row: seq<Token>) {
    && i < j <= |ks|
    && Laid(ks, i, depth, indent) == Lead(ks, i, depth, indent) + (row + Laid(ks, j, depth, indent))
  }

  // ----- The printer puts white space there.

  lemma GapEmpty(indent: Text, depth: nat)
    requires depth > 0
    ensures Repeat(indent, depth) == [] <==> indent == []
  {
    if indent == [] && depth > 1 {
      GapEmpty(indent, depth - 1);
    }
  }

  lemma Nest(a: seq<Token>, b: seq<Token>, c: seq<Token>)
    ensures a + (b + c) == (a + b) + c
  {}

  /** A token that ends a value. */
  predicate EndsValue(k: Token) {
    k.Literal? || k.Numeral? || k.Quoted? || Closes(k)
  }

  lemma CompactEnds(ks: seq<Token>, i: nat, j: nat, v: Value)
    requires Spans(ks, i, j, Compact(v))
    ensures i < j && EndsValue(ks[j - 1])
  {
    var last := |Compact(v)| - 1;
    SpanAt(ks, i, j, Compact(v), last);
    if v.Arr? && v.elements != [] {
      CompactArr(v.elements);
    } else if v.Obj? && v.members != [] {
      CompactObj(v.members);
    }
  }

  lemma CompactFirst(ks: seq<Token>, i: nat, j: nat, v: Value)
    requires Spans(ks, i, j, Compact(v))
    ensures i < j && !Closes(ks[i]) && !(ks[i].Punct? && !Opens(ks[i]))
  {
    SpanAt(ks, i, j, Compact(v), 0);
    CompactStarts(v);
  }

  lemma LaidStep(ks: seq<Token>, i: nat, depth: nat, indent: Text)
    requires i < |ks|
    ensures Laid(ks, i, depth, indent) ==
            Lead(ks, i, depth, indent) + ([ks[i]] + Laid(ks, i + 1, Deeper(ks[i], depth), indent))
  {}

  lemma Nothing(a: seq<Token>)
    ensures [] + a == a
  {}

  /** A mark after a value stands close to it. */
  lemma MarkIsClose(ks: seq<Token>, i: nat, depth: nat, indent: Text, c: Unit)
    requires 0 < i < |ks| && ks[i] == Punct(c) && (c == COMMA || c == COLON) && EndsValue(ks[i - 1])
    ensures Laid(ks, i, depth, indent) == [Punct(c)] + Laid(ks, i + 1, depth, indent)
  {
    LaidStep(ks, i, depth, indent);
    Nothing([Punct(c)] + Laid(ks, i + 1, depth, indent));
  }

  /** What comes after a mark is led by the white space of that mark. */
  lemma LeadAfter(ks: seq<Token>, i: nat, depth: nat, indent: Text)
    requires 0 < i < |ks| && !Closes(ks[i]) && depth > 0
    ensures ks[i - 1] == Punct(COMMA) || Opens(ks[i - 1]) ==> Lead(ks, i, depth, indent) == Break(Repeat(indent, depth))
    ensures ks[i - 1] == Punct(COLON) ==>
              [Punct(COLON)] + Lead(ks, i, depth, indent) == ColonTokens(Repeat(indent, depth))
  {
    GapEmpty(indent, depth);
  }

  lemma OneLaid(ks: seq<Token>, i: nat, j: nat, depth: nat, indent: Text, k: Token)
    requires Spans(ks, i, j, [k]) && !Opens(k) && !Closes(k)
    ensures LaidAs(ks, i, j, depth, indent, [k])
  {
    SpanAt(ks, i, j, [k], 0);
  }

  lemma EmptyLaid(ks: seq<Token>, i: nat, j: nat, depth: nat, indent: Text, open: Token, close: Token)
    requires Spans(ks, i, j, [open, close]) && Opens(open) && Closes(close)
    ensures LaidAs(ks, i, j, depth, indent, [open, close])
  {
    SpanAt(ks, i, j, [open, close], 0);
    SpanAt(ks, i, j, [open, close], 1);
    LaidStep(ks, i, depth, indent);
    LaidStep(ks, i + 1, depth + 1, indent);
    PairAssociate(open, close, Laid(ks, j, depth, indent));
  }

  lemma PairAssociate(open: Token, close: Token, rest: seq<Token>)
    ensures [open] + ([] + ([close] + rest)) == [open, close] + rest
  {
    Nothing([close] + rest);
    Nest([open], [close], rest);
  }

  /** The tokens of a value in the row are laid as they are printed. */
  lemma {:induction false} ValueLaid(ks: seq<Token>, i: nat, j: nat, depth: nat, indent: Text, v: Value)
    requires Spans(ks, i, j, Compact(v))
    ensures LaidAs(ks, i, j, depth, indent, Tokens(v, Repeat(indent, depth), indent))
    decreases v
  {
    match v
    case Arr(elements) =>
      if elements == [] {
        EmptyLaid(ks, i, j, depth, indent, Punct(LBRACKET), Punct(RBRACKET));
      } else {
        var gap := Repeat(indent, depth + 1);
        ArrLaid(ks, i, j, depth, indent, elements, gap);
        ArrTokens(elements, depth, indent, gap);
      }
    case Obj(members) =>
      if members == [] {
        EmptyLaid(ks, i, j, depth, indent, Punct(LBRACE), Punct(RBRACE));
      } else {
        var gap := Repeat(indent, depth + 1);
        ObjLaid(ks, i, j, depth, indent, members, gap);
        ObjTokens(members, depth, indent, gap);
      }
    case _ => OneLaid(ks, i, j, depth, indent, Compact(v)[0]);
  }

  lemma ArrTokens(elements: seq<Value>, depth: nat, indent: Text, gap: Text)
    requires elements != [] && gap == Repeat(indent, depth + 1)
    ensures Tokens(Arr(elements), Repeat(indent, depth), indent) ==
            Bracketed(LBRACKET, ElementTokens(elements, gap, indent), RBRACKET, gap, Repeat(indent, depth))
  {}

  lemma ObjTokens(members: seq<Member>, depth: nat, indent: Text, gap: Text)
    requires members != [] && gap == Repeat(indent, depth + 1)
    ensures Tokens(Obj(members), Repeat(indent, depth), indent) ==
            Bracketed(LBRACE, MemberTokens(members, gap, indent), RBRACE, gap, Repeat(indent, depth))
  {}

  lemma {:induction false} ArrLaid(ks: seq<Token>, i: nat, j: nat, depth: nat, indent: Text, elements: seq<Value>,
                                   gap: Text)
    requires elements != [] && Spans(ks, i, j, Compact(Arr(elements))) && gap == Repeat(indent, depth + 1)
    ensures LaidAs(ks, i, j, depth, indent,
                   Bracketed(LBRACKET, ElementTokens(elements, gap, indent), RBRACKET, gap, Repeat(indent, depth)))
    decreases elements, 1
  {
    CompactArr(elements);
    var m, n := Between(ks, i, j, Punct(LBRACKET), CompactElements(elements), Punct(RBRACKET));
    ElementsLaid(ks, m, n, depth + 1, indent, elements);
    BracketsLaid(ks, i, m, n, j, depth, indent, LBRACKET, ElementTokens(elements, gap, indent), RBRACKET, gap);
  }

  lemma {:induction false} ObjLaid(ks: seq<Token>, i: nat, j: nat, depth: nat, indent: Text, members: seq<Member>,
                                   gap: Text)
    requires members != [] && Spans(ks, i, j, Compact(Obj(members))) && gap == Repeat(indent, depth + 1)
    ensures LaidAs(ks, i, j, depth, indent,
                   Bracketed(LBRACE, MemberTokens(members, gap, indent), RBRACE, gap, Repeat(indent, depth)))
    decreases members, 1
  {
    CompactObj(members);
    var m, n := Between(ks, i, j, Punct(LBRACE), CompactMembers(members), Punct(RBRACE));
    MembersLaid(ks, m, n, depth + 1, indent, members);
    BracketsLaid(ks, i, m, n, j, depth, indent, LBRACE, MemberTokens(members, gap, indent), RBRACE, gap);
  }

  lemma Between(ks: seq<Token>, i: nat, j: nat, open: Token, inner: seq<Token>, close: Token) returns (m: nat, n: nat)
    requires Spans(ks, i, j, [open] + (inner + [close]))
    ensures m == i + 1 && Spans(ks, m, n, inner) && j == n + 1 && ks[i] == open && ks[n] == close
  {
    m := SpanSplit(ks, i, j, [open], inner + [close]);
    SpanAt(ks, i, m, [open], 0);
    n := SpanSplit(ks, m, j, inner, [close]);
    SpanAt(ks, n, j, [close], 0);
  }

  /** Brackets around something that starts and ends as values do. */
  lemma BracketsLaid(ks: seq<Token>, i: nat, m: nat, n: nat, j: nat, depth: nat, indent: Text,
                     open: Unit, inner: seq<Token>, close: Unit, gap: Text)
    requires m == i + 1 && j == n + 1 && m < n && j <= |ks| && ks[i] == Punct(open) && ks[n] == Punct(close)
    requires Opens(ks[i]) && Closes(ks[n]) && !Closes(ks[m]) && EndsValue(ks[n - 1])
    requires LaidAs(ks, m, n, depth + 1, indent, inner) && gap == Repeat(indent, depth + 1)
    ensures LaidAs(ks, i, j, depth, indent, Bracketed(open, inner, close, gap, Repeat(indent, depth)))
  {
    OpeningLaid(ks, i, m, n, depth, indent, inner, gap);
    ClosingLaid(ks, n, j, depth, indent);
    Wrapped(Laid(ks, i, depth, indent), Lead(ks, i, depth, indent), [Punct(open)], Laid(ks, m, depth + 1, indent),
            Break(gap), inner, Laid(ks, n, depth + 1, indent), Return(gap, Repeat(indent, depth)), [Punct(close)],
            Laid(ks, j, depth, indent));
  }

  lemma ClosingLead(ks: seq<Token>, n: nat, depth: nat, indent: Text)
    requires 0 < n < |ks| && Closes(ks[n]) && EndsValue(ks[n - 1])
    ensures Lead(ks, n, depth + 1, indent) == Return(Repeat(indent, depth + 1), Repeat(indent, depth))
  {
    GapEmpty(indent, depth + 1);
  }

  lemma ClosingLaid(ks: seq<Token>, n: nat, j: nat, depth: nat, indent: Text)
    requires 0 < n && j == n + 1 <= |ks| && Closes(ks[n]) && EndsValue(ks[n - 1])
    ensures Laid(ks, n, depth + 1, indent) ==
            Return(Repeat(indent, depth + 1), Repeat(indent, depth)) + ([ks[n]] + Laid(ks, j, depth, indent))
  {
    ClosingLead(ks, n, depth, indent);
    LaidStep(ks, n, depth + 1, indent);
  }

  lemma OpeningLaid(ks: seq<Token>, i: nat, m: nat, n: nat, depth: nat, indent: Text, inner: seq<Token>, gap: Text)
    requires m == i + 1 && i < |ks| && Opens(ks[i]) && gap == Repeat(indent, depth + 1)
    requires LaidAs(ks, m, n, depth + 1, indent, inner) && !Closes(ks[m])
    ensures Laid(ks, i, depth, indent) == Lead(ks, i, depth, indent) + ([ks[i]] + Laid(ks, m, depth + 1, indent))
    ensures Laid(ks, m, depth + 1, indent) == Break(gap) + (inner + Laid(ks, n, depth + 1, indent))
  {
    LaidStep(ks, i, depth, indent);
    LeadAfter(ks, m, depth + 1, indent);
  }

  /** A stretch with marks and white space around it is one stretch. */
  lemma Wrapped(here: seq<Token>, lead: seq<Token>, open: seq<Token>, next: seq<Token>, gap: seq<Token>,
                inner: seq<Token>, last: seq<Token>, back: seq<Token>, close: seq<Token>, rest: seq<Token>)
    requires here == lead + (open + next) && next == gap + (inner + last) && last == back + (close + rest)
    ensures here == lead + ((open + (gap + (inner + (back + close)))) + rest)
  {
    Nest(back, close, rest);
    Nest(inner, back + close, rest);
    Nest(gap, inner + (back + close), rest);
    Nest(open, gap + (inner + (back + close)), rest);
  }

  /** Two stretches with a mark and its white space between them are one stretch. */
  lemma Joined(here: seq<Token>, lead: seq<Token>, first: seq<Token>, middle: seq<Token>, mark: seq<Token>,
               next: seq<Token>, gap: seq<Token>, others: seq<Token>, rest: seq<Token>)
    requires here == lead + (first + middle) && middle == mark + next && next == gap + (others + rest)
    ensures here == lead + ((first + (mark + (gap + others))) + rest)
  {
    Nest(gap, others, rest);
    Nest(mark, gap + others, rest);
    Nest(first, mark + (gap + others), rest);
  }

  lemma AfterComma(ks: seq<Token>, m: nat, n: nat, j: nat, depth: nat, indent: Text, others: seq<Token>, gap: Text)
    requires 0 < m && n == m + 1 && depth > 0 && gap == Repeat(indent, depth)
    requires m < |ks| && ks[m] == Punct(COMMA) && EndsValue(ks[m - 1])
    requires LaidAs(ks, n, j, depth, indent, others) && !Closes(ks[n])
    ensures Laid(ks, m, depth, indent) == [Punct(COMMA)] + Laid(ks, n, depth, indent)
    ensures Laid(ks, n, depth, indent) == Break(gap) + (others + Laid(ks, j, depth, indent))
  {
    MarkIsClose(ks, m, depth, indent, COMMA);
    LeadAfter(ks, n, depth, indent);
  }

  /** Two parts with a comma between them. */
  lemma SeparatedLaid(ks: seq<Token>, i: nat, m: nat, n: nat, j: nat, depth: nat, indent: Text,
                      first: seq<Token>, others: seq<Token>, gap: Text)
    requires n == m + 1 && depth > 0 && gap == Repeat(indent, depth)
    requires LaidAs(ks, i, m, depth, indent, first) && LaidAs(ks, n, j, depth, indent, others)
    requires ks[m] == Punct(COMMA) && EndsValue(ks[m - 1]) && !Closes(ks[n])
    ensures LaidAs(ks, i, j, depth, indent, first + ([Punct(COMMA)] + (Break(gap) + others)))
  {
    AfterComma(ks, m, n, j, depth, indent, others, gap);
    Joined(Laid(ks, i, depth, indent), Lead(ks, i, depth, indent), first, Laid(ks, m, depth, indent), [Punct(COMMA)],
           Laid(ks, n, depth, indent), Break(gap), others, Laid(ks, j, depth, indent));
  }

  lemma {:induction false} ElementsLaid(ks: seq<Token>, i: nat, j: nat, depth: nat, indent: Text, elements: seq<Value>)
    requires elements != [] && depth > 0 && Spans(ks, i, j, CompactElements(elements))
    ensures i < j && !Closes(ks[i]) && EndsValue(ks[j - 1])
    ensures LaidAs(ks, i, j, depth, indent, ElementTokens(elements, Repeat(indent, depth), indent))
    decreases elements, 0
  {
    if |elements| == 1 {
      CompactFirst(ks, i, j, elements[0]);
      CompactEnds(ks, i, j, elements[0]);
      ValueLaid(ks, i, j, depth, indent, elements[0]);
    } else {
      CompactMore(elements);
      var m := SplitAtComma(ks, i, j, Compact(elements[0]), CompactElements(elements[1..]));
      CompactFirst(ks, i, m, elements[0]);
      CompactEnds(ks, i, m, elements[0]);
      ValueLaid(ks, i, m, depth, indent, elements[0]);
      var n, gap := m + 1, Repeat(indent, depth);
      ElementsLaid(ks, n, j, depth, indent, elements[1..]);
      SeparatedLaid(ks, i, m, n, j, depth, indent, Tokens(elements[0], gap, indent),
                    ElementTokens(elements[1..], gap, indent), gap);
    }
  }

  lemma {:induction false} MemberLaid(ks: seq<Token>, i: nat, j: nat, depth: nat, indent: Text, m: Member)
    requires depth > 0 && Spans(ks, i, j, CompactMembers([m]))
    ensures i < j && !Closes(ks[i]) && EndsValue(ks[j - 1])
    ensures LaidAs(ks, i, j, depth, indent,
                   KeyTokens(m.key, Repeat(indent, depth)) + Tokens(m.value, Repeat(indent, depth), indent))
    decreases m
  {
    var gap, rest := Repeat(indent, depth), Laid(ks, j, depth, indent);
    CompactMember(m);
    var n := SpanSplit(ks, i, j, [Quoted(m.key), Punct(COLON)], Compact(m.value));
    SpanAt(ks, i, n, [Quoted(m.key), Punct(COLON)], 0);
    SpanAt(ks, i, n, [Quoted(m.key), Punct(COLON)], 1);
    CompactFirst(ks, n, j, m.value);
    CompactEnds(ks, n, j, m.value);
    ValueLaid(ks, n, j, depth, indent, m.value);
    MarkIsClose(ks, i + 1, depth, indent, COLON);
    LeadAfter(ks, n, depth, indent);
    var lead, tokens := Lead(ks, n, depth, indent), Tokens(m.value, gap, indent);
    Nest([Punct(COLON)], lead, tokens + rest);
    Nest([Quoted(m.key)], ColonTokens(gap), tokens + rest);
    Nest(KeyTokens(m.key, gap), tokens, rest);
  }

  lemma {:induction false} MembersLaid(ks: seq<Token>, i: nat, j: nat, depth: nat, indent: Text, members: seq<Member>)
    requires members != [] && depth > 0 && Spans(ks, i, j, CompactMembers(members))
    ensures i < j && !Closes(ks[i]) && EndsValue(ks[j - 1])
    ensures LaidAs(ks, i, j, depth, indent, MemberTokens(members, Repeat(indent, depth), indent))
    decreases members, 0
  {
    var gap, first := Repeat(indent, depth), members[0];
    assert members[..1] == [first];
    if |members| == 1 {
      assert members == [first];
      MemberLaid(ks, i, j, depth, indent, first);
    } else {
      CompactMoreMembers(members);
      var m := SplitAtComma(ks, i, j, CompactMembers([first]), CompactMembers(members[1..]));
      MemberLaid(ks, i, m, depth, indent, first);
      var n := m + 1;
      MembersLaid(ks, n, j, depth, indent, members[1..]);
      SeparatedLaid(ks, i, m, n, j, depth, indent, KeyTokens(first.key, gap) + Tokens(first.value, gap, indent),
                    MemberTokens(members[1..], gap, indent), gap);
    }
  }

  /** The printed text is the row of the value's tokens with white space exactly there, whatever
      the indentation is made of. */
  lemma PrintIsLaid(v: Value, indent: Text)
    ensures Print(v, [], indent) == Render(Laid(Compact(v), 0, 0, indent))
  {
    TokensAreLaid(v, indent);
    PrintIsTokens(v, [], indent);
  }

  lemma TokensAreLaid(v: Value, indent: Text)
    ensures Tokens(v, [], indent) == Laid(Compact(v), 0, 0, indent)
  {
    var ks, tokens := Compact(v), Tokens(v, [], indent);
    assert ks[0..|ks|] == ks && Repeat(indent, 0) == [];
    ValueLaid(ks, 0, |ks|, 0, indent, v);
    assert Laid(ks, |ks|, 0, indent) == [];
    assert [] + (tokens + []) == tokens;
  }

  /** A text printed with white space for indentation is its own tokens, with white space exactly
      where the layout puts it. */
  lemma LayoutExactly(v: Value, indent: Text)
    requires Proper(v) && AllBlank(indent)
    ensures var t := Print(v, [], indent);
            Lex(t, 0) == Some(Compact(v)) && t == Render(Laid(Lex(t, 0).value, 0, 0, indent))
  {
    var t := Print(v, [], indent);
    PrintIsTokens(v, [], indent);
    TokensReadable(v, [], indent);
    assert Spans(t, 0, |t|, Render(Tokens(v, [], indent)));
    LexRender(t, 0, Tokens(v, [], indent));
    MarksAreCompact(v, [], indent);
    PrintIsLaid(v, indent);
  }

  /** A numeric space argument means that many spaces, none if it is not positive; a text means
      itself. */
  lemma IndentExactly(space: Space)
    ensures space.NoSpace? ==> IndentOf(space) == []
    ensures space.Filler? ==> IndentOf(space) == space.t
    ensures space.Count? ==>
              && |IndentOf(space)| == (if space.n > 0 then space.n else 0)
              && forall i | 0 <= i < |IndentOf(space)| :: IndentOf(space)[i] == 32
  {}
}
