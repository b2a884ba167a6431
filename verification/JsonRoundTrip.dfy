/** What is printed is read back (functions quote, str and stringify of www/js/json2.js). */
module JsonRoundTrip {
  import opened Wrappers
  import opened JsonText
  import opened JsonPrinter
  import opened JsonParser

  // ----- The printed tokens can be read.

  ghost predicate Readable(ks: seq<Token>) {
    ProperTokens(ks) && Separated(ks)
  }

  /** Nothing that starts like this runs into a number before it. */
  predicate Apart(ks: seq<Token>, ls: seq<Token>) {
    ks == [] || ls == [] || !ks[|ks| - 1].Numeral? || ls[0].Punct? || ls[0].Blank?
  }

  lemma ReadableAppend(ks: seq<Token>, ls: seq<Token>)
    requires Readable(ks) && Readable(ls) && Apart(ks, ls)
    ensures Readable(ks + ls)
  {
    forall i | 0 <= i < |ks + ls| - 1 && (ks + ls)[i].Numeral?
      ensures (ks + ls)[i + 1].Punct? || (ks + ls)[i + 1].Blank?
    {
      assert i >= |ks| ==> ls[i - |ks|].Numeral?;
    }
  }

  lemma ReadableBreak(gap: Text, mind: Text)
    requires AllBlank(gap) && AllBlank(mind)
    ensures Readable(Break(gap)) && Readable(Return(gap, mind)) && Readable(ColonTokens(gap))
  {}

  lemma ReadableBracketed(open: Unit, inner: seq<Token>, close: Unit, gap: Text, mind: Text)
    requires Readable(inner) && AllBlank(gap) && AllBlank(mind) && IsPunct(open) && IsPunct(close)
    ensures Readable(Bracketed(open, inner, close, gap, mind))
  {
    ReadableBreak(gap, mind);
    ReadableAppend(Return(gap, mind), [Punct(close)]);
    ReadableAppend(inner, Return(gap, mind) + [Punct(close)]);
    ReadableAppend(Break(gap), inner + (Return(gap, mind) + [Punct(close)]));
    ReadableAppend([Punct(open)], Break(gap) + (inner + (Return(gap, mind) + [Punct(close)])));
  }

  lemma ReadableSeparated(first: seq<Token>, gap: Text, others: seq<Token>)
    requires Readable(first) && Readable(others) && AllBlank(gap)
    ensures Readable(first + ([Punct(COMMA)] + (Break(gap) + others)))
  {
    ReadableBreak(gap, gap);
    ReadableAppend(Break(gap), others);
    ReadableAppend([Punct(COMMA)], Break(gap) + others);
    ReadableAppend(first, [Punct(COMMA)] + (Break(gap) + others));
  }

  lemma {:induction false} TokensReadable(v: Value, gap: Text, indent: Text)
    requires Proper(v) && AllBlank(gap) && AllBlank(indent)
    ensures Readable(Tokens(v, gap, indent))
    decreases v
  {
    match v
    case Arr(elements) =>
      if elements != [] {
        ElementsReadable(elements, gap + indent, indent);
        ReadableBracketed(LBRACKET, ElementTokens(elements, gap + indent, indent), RBRACKET, gap + indent, gap);
      }
    case Obj(members) =>
      if members != [] {
        MembersReadable(members, gap + indent, indent);
        ReadableBracketed(LBRACE, MemberTokens(members, gap + indent, indent), RBRACE, gap + indent, gap);
      }
    case _ =>
  }

  lemma {:induction false} ElementsReadable(elements: seq<Value>, gap: Text, indent: Text)
    requires elements != [] && (forall e | e in elements :: Proper(e)) && AllBlank(gap) && AllBlank(indent)
    ensures Readable(ElementTokens(elements, gap, indent))
    decreases elements
  {
    TokensReadable(elements[0], gap, indent);
    if |elements| > 1 {
      ElementsReadable(elements[1..], gap, indent);
      ReadableSeparated(Tokens(elements[0], gap, indent), gap, ElementTokens(elements[1..], gap, indent));
    }
  }

  lemma {:induction false} MembersReadable(members: seq<Member>, gap: Text, indent: Text)
    requires members != [] && (forall m | m in members :: Proper(m.value)) && AllBlank(gap) && AllBlank(indent)
    ensures Readable(MemberTokens(members, gap, indent))
    decreases members
  {
    assert members[0] in members;
    TokensReadable(members[0].value, gap, indent);
    ReadableBreak(gap, gap);
    ReadableAppend([Quoted(members[0].key)], ColonTokens(gap));
    var first := KeyTokens(members[0].key, gap) + Tokens(members[0].value, gap, indent);
    ReadableAppend(KeyTokens(members[0].key, gap), Tokens(members[0].value, gap, indent));
    if |members| > 1 {
      MembersReadable(members[1..], gap, indent);
      ReadableSeparated(first, gap, MemberTokens(members[1..], gap, indent));
    }
  }

  // ----- Without white space they are the tokens printed without indentation.

  lemma MarksFirst(k: Token, ks: seq<Token>)
    ensures Marks([k] + ks) == if k.Blank? then Marks(ks) else [k] + Marks(ks)
  {
    assert ([k] + ks)[1..] == ks;
  }

  lemma MarksOne(k: Token)
    ensures Marks([k]) == if k.Blank? then [] else [k]
  {
    assert [k][1..] == [];
  }

  lemma MarksBreak(gap: Text, ks: seq<Token>)
    ensures Marks(Break(gap) + ks) == Marks(ks)
  {
    if gap == [] {
      assert Break(gap) + ks == ks;
    } else {
      MarksFirst(Blank(NewLine(gap)), ks);
    }
  }

  lemma MarksBracketed(open: Unit, inner: seq<Token>, close: Unit, gap: Text, mind: Text)
    ensures Marks(Bracketed(open, inner, close, gap, mind)) == [Punct(open)] + (Marks(inner) + [Punct(close)])
  {
    var tail := Return(gap, mind) + [Punct(close)];
    MarksFirst(Punct(open), Break(gap) + (inner + tail));
    MarksBreak(gap, inner + tail);
    MarksAppend(inner, tail);
    MarksOne(Punct(close));
    if gap == [] {
      assert tail == [Punct(close)];
    } else {
      MarksFirst(Blank(NewLine(mind)), [Punct(close)]);
    }
  }

  lemma MarksSeparated(first: seq<Token>, gap: Text, others: seq<Token>)
    ensures Marks(first + ([Punct(COMMA)] + (Break(gap) + others))) ==
            Marks(first) + ([Punct(COMMA)] + Marks(others))
  {
    MarksAppend(first, [Punct(COMMA)] + (Break(gap) + others));
    MarksFirst(Punct(COMMA), Break(gap) + others);
    MarksBreak(gap, others);
  }

  /** The tokens of a value printed without indentation. */
  function Compact(v: Value): seq<Token> {
    Tokens(v, [], [])
  }

  function CompactElements(elements: seq<Value>): seq<Token>
    requires elements != []
  {
    ElementTokens(elements, [], [])
  }

  function CompactMembers(members: seq<Member>): seq<Token>
    requires members != []
  {
    MemberTokens(members, [], [])
  }

  lemma CompactArr(elements: seq<Value>)
    requires elements != []
    ensures Compact(Arr(elements)) == [Punct(LBRACKET)] + (CompactElements(elements) + [Punct(RBRACKET)])
  {
    var gap: Text := [];
    assert gap + gap == gap;
  }

  lemma CompactObj(members: seq<Member>)
    requires members != []
    ensures Compact(Obj(members)) == [Punct(LBRACE)] + (CompactMembers(members) + [Punct(RBRACE)])
  {
    var gap: Text := [];
    assert gap + gap == gap;
  }

  lemma CompactMore(elements: seq<Value>)
    requires |elements| > 1
    ensures CompactElements(elements) == Compact(elements[0]) + ([Punct(COMMA)] + CompactElements(elements[1..]))
  {}

  lemma CompactMoreMembers(members: seq<Member>)
    requires |members| > 1
    ensures CompactMembers(members) ==
            CompactMembers(members[..1]) + ([Punct(COMMA)] + CompactMembers(members[1..]))
  {}

  lemma CompactMember(m: Member)
    ensures CompactMembers([m]) == [Quoted(m.key), Punct(COLON)] + Compact(m.value)
  {}

  lemma {:induction false} MarksAreCompact(v: Value, gap: Text, indent: Text)
    ensures Marks(Tokens(v, gap, indent)) == Compact(v)
    decreases v
  {
    match v
    case Null => MarksOne(Literal(NullWord));
    case Boolean(b) => MarksOne(Literal(if b then TrueWord else FalseWord));
    case Num(n) => MarksOne(Numeral(n));
    case NotFinite => MarksOne(Literal(NullWord));
    case Str(s) => MarksOne(Quoted(s));
    case Arr(elements) =>
      if elements == [] {
        MarksPair(LBRACKET, RBRACKET);
      } else {
        ElementMarks(elements, gap + indent, indent);
        MarksBracketed(LBRACKET, ElementTokens(elements, gap + indent, indent), RBRACKET, gap + indent, gap);
        CompactArr(elements);
      }
    case Obj(members) =>
      if members == [] {
        MarksPair(LBRACE, RBRACE);
      } else {
        MemberMarks(members, gap + indent, indent);
        MarksBracketed(LBRACE, MemberTokens(members, gap + indent, indent), RBRACE, gap + indent, gap);
        CompactObj(members);
      }
  }

  lemma MarksPair(open: Unit, close: Unit)
    ensures Marks([Punct(open), Punct(close)]) == [Punct(open), Punct(close)]
  {
    MarksOne(Punct(close));
    MarksFirst(Punct(open), [Punct(close)]);
    assert [Punct(open), Punct(close)] == [Punct(open)] + [Punct(close)];
  }

  lemma {:induction false} ElementMarks(elements: seq<Value>, gap: Text, indent: Text)
    requires elements != []
    ensures Marks(ElementTokens(elements, gap, indent)) == CompactElements(elements)
    decreases elements
  {
    MarksAreCompact(elements[0], gap, indent);
    if |elements| > 1 {
      ElementMarks(elements[1..], gap, indent);
      MarksSeparated(Tokens(elements[0], gap, indent), gap, ElementTokens(elements[1..], gap, indent));
      CompactMore(elements);
    }
  }

  lemma MemberMark(m: Member, gap: Text, indent: Text)
    requires Marks(Tokens(m.value, gap, indent)) == Compact(m.value)
    ensures Marks(KeyTokens(m.key, gap) + Tokens(m.value, gap, indent)) == CompactMembers([m])
  {
    MarksAppend(KeyTokens(m.key, gap), Tokens(m.value, gap, indent));
    MarksFirst(Quoted(m.key), ColonTokens(gap));
    MarksOne(Punct(COLON));
    MarksOne(Blank([SPACE]));
    MarksFirst(Punct(COLON), [Blank([SPACE])]);
    assert [Punct(COLON), Blank([SPACE])] == [Punct(COLON)] + [Blank([SPACE])];
    CompactMember(m);
  }

  lemma {:induction false} MemberMarks(members: seq<Member>, gap: Text, indent: Text)
    requires members != []
    ensures Marks(MemberTokens(members, gap, indent)) == CompactMembers(members)
    decreases members
  {
    MarksAreCompact(members[0].value, gap, indent);
    MemberMark(members[0], gap, indent);
    assert members[..1] == [members[0]];
    if |members| > 1 {
      MemberMarks(members[1..], gap, indent);
      MarksSeparated(KeyTokens(members[0].key, gap) + Tokens(members[0].value, gap, indent), gap,
                     MemberTokens(members[1..], gap, indent));
      CompactMoreMembers(members);
    } else {
      assert members == [members[0]];
    }
  }

  // ----- Parsing undoes the compact tokens.

  /** The value as it can be read back: a number that is not finite is printed as null. */
  function Normal(v: Value): Value
    decreases v
  {
    match v
    case NotFinite => Null
    case Arr(elements) => Arr(NormalElements(elements))
    case Obj(members) => Obj(NormalMembers(members))
    case _ => v
  }

  function NormalElements(elements: seq<Value>): (r: seq<Value>)
    ensures |r| == |elements|
    decreases elements
  {
    if elements == [] then [] else [Normal(elements[0])] + NormalElements(elements[1..])
  }

  function NormalMembers(members: seq<Member>): (r: seq<Member>)
    ensures |r| == |members|
    decreases members
  {
    if members == [] then []
    else [Member(members[0].key, Normal(members[0].value))] + NormalMembers(members[1..])
  }

  /** No value starts with a closing bracket. */
  lemma CompactStarts(v: Value)
    ensures Compact(v) != [] && Compact(v)[0] != Punct(RBRACKET) && Compact(v)[0] != Punct(RBRACE)
  {}

  lemma ElementsStart(elements: seq<Value>)
    requires elements != []
    ensures CompactElements(elements) != [] && CompactElements(elements)[0] != Punct(RBRACKET)
  {
    CompactStarts(elements[0]);
  }

  lemma {:induction false} ReadValue(ts: seq<Token>, i: nat, j: nat, v: Value)
    requires Spans(ts, i, j, Compact(v))
    ensures ValueAt(ts, i) == Found(Normal(v), j)
    decreases v
  {
    match v
    case Arr(elements) =>
      if elements == [] {
        ReadEmpty(ts, i, j, v);
      } else {
        ReadArr(ts, i, j, elements);
      }
    case Obj(members) =>
      if members == [] {
        ReadEmpty(ts, i, j, v);
      } else {
        ReadObj(ts, i, j, members);
      }
    case _ =>
      SpanAt(ts, i, j, Compact(v), 0);
  }

  lemma ReadEmpty(ts: seq<Token>, i: nat, j: nat, v: Value)
    requires v == Arr([]) || v == Obj([])
    requires Spans(ts, i, j, Compact(v))
    ensures ValueAt(ts, i) == Found(v, j)
  {
    SpanAt(ts, i, j, Compact(v), 0);
    SpanAt(ts, i, j, Compact(v), 1);
  }

  lemma {:induction false} ReadArr(ts: seq<Token>, i: nat, j: nat, elements: seq<Value>)
    requires elements != [] && Spans(ts, i, j, Compact(Arr(elements)))
    ensures ValueAt(ts, i) == Found(Arr(NormalElements(elements)), j)
    decreases elements, 1
  {
    CompactArr(elements);
    var m := SpanSplit(ts, i, j, [Punct(LBRACKET)], CompactElements(elements) + [Punct(RBRACKET)]);
    SpanAt(ts, i, m, [Punct(LBRACKET)], 0);
    ElementsStart(elements);
    SpanAt(ts, m, j, CompactElements(elements) + [Punct(RBRACKET)], 0);
    ReadElements(ts, m, j, elements);
  }

  lemma {:induction false} ReadObj(ts: seq<Token>, i: nat, j: nat, members: seq<Member>)
    requires members != [] && Spans(ts, i, j, Compact(Obj(members)))
    ensures ValueAt(ts, i) == Found(Obj(NormalMembers(members)), j)
    decreases members, 1
  {
    CompactObj(members);
    var m := SpanSplit(ts, i, j, [Punct(LBRACE)], CompactMembers(members) + [Punct(RBRACE)]);
    SpanAt(ts, i, m, [Punct(LBRACE)], 0);
    SpanAt(ts, m, j, CompactMembers(members) + [Punct(RBRACE)], 0);
    ReadMembers(ts, m, j, members);
  }

  /** What stands before a comma, and what stands after it. */
  lemma SplitAtComma(ts: seq<Token>, i: nat, j: nat, first: seq<Token>, rest: seq<Token>) returns (m: nat)
    requires Spans(ts, i, j, first + ([Punct(COMMA)] + rest))
    ensures Spans(ts, i, m, first) && Is(ts, m, COMMA) && Spans(ts, m + 1, j, rest)
  {
    m := SpanSplit(ts, i, j, first, [Punct(COMMA)] + rest);
    var n := SpanSplit(ts, m, j, [Punct(COMMA)], rest);
    SpanAt(ts, m, n, [Punct(COMMA)], 0);
  }

  lemma ElementsClosed(elements: seq<Value>)
    requires |elements| > 1
    ensures CompactElements(elements) + [Punct(RBRACKET)] ==
            Compact(elements[0]) + ([Punct(COMMA)] + (CompactElements(elements[1..]) + [Punct(RBRACKET)]))
  {
    CompactMore(elements);
  }

  lemma MembersClosed(members: seq<Member>)
    requires |members| > 1
    ensures CompactMembers(members) + [Punct(RBRACE)] ==
            CompactMembers(members[..1]) + ([Punct(COMMA)] + (CompactMembers(members[1..]) + [Punct(RBRACE)]))
  {
    CompactMoreMembers(members);
  }

  lemma ElementsStep(ts: seq<Token>, i: nat, v: Value, m: nat, rest: seq<Value>, j: nat)
    requires i <= |ts| && ValueAt(ts, i) == Found(v, m) && Is(ts, m, COMMA) && ElementsAt(ts, m + 1) == Found(rest, j)
    ensures ElementsAt(ts, i) == Found([v] + rest, j)
  {}

  lemma {:induction false} ReadElements(ts: seq<Token>, i: nat, j: nat, elements: seq<Value>)
    requires elements != [] && Spans(ts, i, j, CompactElements(elements) + [Punct(RBRACKET)])
    ensures ElementsAt(ts, i) == Found(NormalElements(elements), j)
    decreases elements, 0
  {
    if |elements| == 1 {
      var m := SpanSplit(ts, i, j, Compact(elements[0]), [Punct(RBRACKET)]);
      SpanAt(ts, m, j, [Punct(RBRACKET)], 0);
      ReadValue(ts, i, m, elements[0]);
      assert NormalElements(elements) == [Normal(elements[0])];
    } else {
      ElementsClosed(elements);
      var m := SplitAtComma(ts, i, j, Compact(elements[0]), CompactElements(elements[1..]) + [Punct(RBRACKET)]);
      ReadValue(ts, i, m, elements[0]);
      ReadElements(ts, m + 1, j, elements[1..]);
      ElementsStep(ts, i, Normal(elements[0]), m, NormalElements(elements[1..]), j);
    }
  }

  /** A member read up to the mark that follows it. */
  lemma {:induction false} ReadMember(ts: seq<Token>, i: nat, j: nat, m: Member)
    requires Spans(ts, i, j, CompactMembers([m]))
    ensures i + 2 <= |ts| && ts[i] == Quoted(m.key) && Is(ts, i + 1, COLON)
    ensures ValueAt(ts, i + 2) == Found(Normal(m.value), j)
    decreases m
  {
    CompactMember(m);
    SpanAt(ts, i, j, CompactMembers([m]), 0);
    SpanAt(ts, i, j, CompactMembers([m]), 1);
    var n := SpanSplit(ts, i, j, [Quoted(m.key), Punct(COLON)], Compact(m.value));
    ReadValue(ts, n, j, m.value);
  }

  lemma MembersStep(ts: seq<Token>, i: nat, first: Member, m: nat, rest: seq<Member>, j: nat)
    requires i + 2 <= |ts| && ts[i] == Quoted(first.key) && Is(ts, i + 1, COLON)
    requires ValueAt(ts, i + 2) == Found(first.value, m) && Is(ts, m, COMMA) && MembersAt(ts, m + 1) == Found(rest, j)
    ensures MembersAt(ts, i) == Found([first] + rest, j)
  {}

  lemma {:induction false} ReadMembers(ts: seq<Token>, i: nat, j: nat, members: seq<Member>)
    requires members != [] && Spans(ts, i, j, CompactMembers(members) + [Punct(RBRACE)])
    ensures MembersAt(ts, i) == Found(NormalMembers(members), j)
    decreases members, 0
  {
    assert members[..1] == [members[0]];
    if |members| == 1 {
      assert members == [members[0]];
      var m := SpanSplit(ts, i, j, CompactMembers([members[0]]), [Punct(RBRACE)]);
      SpanAt(ts, m, j, [Punct(RBRACE)], 0);
      ReadMember(ts, i, m, members[0]);
      assert NormalMembers(members) == [Member(members[0].key, Normal(members[0].value))];
    } else {
      MembersClosed(members);
      var m := SplitAtComma(ts, i, j, CompactMembers([members[0]]), CompactMembers(members[1..]) + [Punct(RBRACE)]);
      ReadMember(ts, i, m, members[0]);
      ReadMembers(ts, m + 1, j, members[1..]);
      MembersStep(ts, i, Member(members[0].key, Normal(members[0].value)), m, NormalMembers(members[1..]), j);
    }
  }

  // ----- The round trip.

  /** Printing with any white space as indentation and parsing gives the value back. */
  lemma RoundTrip(v: Value, indent: Text)
    requires Proper(v) && AllBlank(indent)
    ensures Parse(Print(v, [], indent)) == Some(Normal(v))
  {
    var t, ks := Print(v, [], indent), Tokens(v, [], indent);
    PrintIsTokens(v, [], indent);
    TokensReadable(v, [], indent);
    assert Spans(t, 0, |t|, Render(ks));
    LexRender(t, 0, ks);
    MarksAreCompact(v, [], indent);
    ReadValue(Compact(v), 0, |Compact(v)|, v);
  }

  /** The value holds no infinity and no NaN. */
  predicate Finite(v: Value) {
    match v
    case NotFinite => false
    case Arr(elements) => forall e | e in elements :: Finite(e)
    case Obj(members) => forall m | m in members :: Finite(m.value)
    case _ => true
  }

  lemma {:induction false} NormalExactly(v: Value)
    ensures Normal(v) == v <==> Finite(v)
    decreases v
  {
    match v
    case Arr(elements) => NormalElementsExactly(elements);
    case Obj(members) => NormalMembersExactly(members);
    case _ =>
  }

  lemma {:induction false} NormalElementsExactly(elements: seq<Value>)
    ensures NormalElements(elements) == elements <==> forall e | e in elements :: Finite(e)
    decreases elements
  {
    if elements != [] {
      NormalExactly(elements[0]);
      NormalElementsExactly(elements[1..]);
      assert elements == [elements[0]] + elements[1..];
      assert NormalElements(elements)[1..] == NormalElements(elements[1..]);
    }
  }

  lemma {:induction false} NormalMembersExactly(members: seq<Member>)
    ensures NormalMembers(members) == members <==> forall m | m in members :: Finite(m.value)
    decreases members
  {
    if members != [] {
      NormalExactly(members[0].value);
      NormalMembersExactly(members[1..]);
      assert members == [members[0]] + members[1..];
      assert NormalMembers(members)[1..] == NormalMembers(members[1..]);
    }
  }

  /** A value printed with white space as indentation is read back unchanged exactly when every
      number in it is finite. */
  lemma RoundTripExactly(v: Value, indent: Text)
    requires Proper(v) && AllBlank(indent)
    ensures Parse(Print(v, [], indent)) == Some(v) <==> Finite(v)
  {
    RoundTrip(v, indent);
    NormalExactly(v);
  }
}
