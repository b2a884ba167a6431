/** Printing JSON values with indentation (functions str and stringify of www/js/json2.js). */
module JsonPrinter {
  import opened JsonText

  function Join(parts: seq<Text>, separator: Text): Text {
    if parts == [] then []
    else if |parts| == 1 then parts[0]
    else parts[0] + (separator + Join(parts[1..], separator))
  }

  function NewLine(gap: Text): Text {
    [NEWLINE] + gap
  }

  /** The parts of an object or array between its brackets: on one line, or one part a line. */
  function Enclose(open: Unit, parts: seq<Text>, close: Unit, gap: Text, mind: Text): Text {
    if parts == [] then [open, close]
    else if gap != [] then
      [open] + (NewLine(gap) + (Join(parts, [COMMA] + NewLine(gap)) + (NewLine(mind) + [close])))
    else [open] + (Join(parts, [COMMA]) + [close])
  }

  function Colon(gap: Text): Text {
    if gap != [] then [COLON, SPACE] else [COLON]
  }

  /** The text printed for a value at a given gap. */
  function Print(v: Value, gap: Text, indent: Text): Text
    decreases v
  {
    match v
    case Null => WordText(NullWord)
    case Boolean(b) => WordText(if b then TrueWord else FalseWord)
    case Num(n) => NumberText(n)
    case NotFinite => WordText(NullWord)
    case Str(s) => Quote(s)
    case Arr(elements) => Enclose(LBRACKET, PrintElements(elements, gap + indent, indent), RBRACKET, gap + indent, gap)
    case Obj(members) => Enclose(LBRACE, PrintMembers(members, gap + indent, indent), RBRACE, gap + indent, gap)
  }

  function PrintElements(elements: seq<Value>, gap: Text, indent: Text): (parts: seq<Text>)
    ensures |parts| == |elements|
    decreases elements
  {
    if elements == [] then []
    else [Print(elements[0], gap, indent)] + PrintElements(elements[1..], gap, indent)
  }

  function PrintMembers(members: seq<Member>, gap: Text, indent: Text): (parts: seq<Text>)
    ensures |parts| == |members|
    decreases members
  {
    if members == [] then []
    else
      [Quote(members[0].key) + Colon(gap) + Print(members[0].value, gap, indent)]
      + PrintMembers(members[1..], gap, indent)
  }

  datatype Space = NoSpace | Count(n: int) | Filler(t: Text)

  function Spaces(n: int): Text {
    if n <= 0 then [] else seq(n, _ => SPACE)
  }

  function IndentOf(space: Space): Text {
    match space
    case NoSpace => []
    case Count(n) => Spaces(n)
    case Filler(t) => t
  }

  lemma NextElement(elements: seq<Value>, i: nat, gap: Text, indent: Text, partial: seq<Text>)
    requires i < |elements|
    ensures partial + PrintElements(elements[i..], gap, indent) ==
            (partial + [Print(elements[i], gap, indent)]) + PrintElements(elements[i + 1..], gap, indent)
  {
    assert elements[i..][1..] == elements[i + 1..];
  }

  lemma NextMember(members: seq<Member>, i: nat, gap: Text, indent: Text, partial: seq<Text>)
    requires i < |members|
    ensures partial + PrintMembers(members[i..], gap, indent) ==
            (partial + [Quote(members[i].key) + Colon(gap) + Print(members[i].value, gap, indent)])
            + PrintMembers(members[i + 1..], gap, indent)
  {
    assert members[i..][1..] == members[i + 1..];
  }

  class Stringifier {
    var gap: Text
    var indent: Text

    constructor ()
      ensures gap == [] && indent == []
    {
      gap, indent := [], [];
    }

    /** Every call leaves the gap as it found it. */
    method Str(value: Value) returns (v: Text)
      modifies this`gap
      ensures gap == old(gap)
      ensures v == Print(value, old(gap), indent)
      decreases value, 1
    {
      match value {
        case Null => v := WordText(NullWord);
        case Boolean(b) => v := WordText(if b then TrueWord else FalseWord);
        case Num(n) => v := NumberText(n);
        case NotFinite => v := WordText(NullWord);
        case Str(s) => v := Quote(s);
        case Arr(_) => v := StrArray(value);
        case Obj(_) => v := StrObject(value);
      }
    }

    method StrArray(value: Value) returns (v: Text)
      requires value.Arr?
      modifies this`gap
      ensures gap == old(gap)
      ensures v == Print(value, old(gap), indent)
      decreases value, 0
    {
      var mind, elements := gap, value.elements;
      gap := gap + indent;
      var partial: seq<Text> := [];
      var i := 0;
      assert elements[0..] == elements;
      while i < |elements|
        invariant 0 <= i <= |elements| && gap == mind + indent
        invariant PrintElements(elements, gap, indent) == partial + PrintElements(elements[i..], gap, indent)
      {
        var part := Str(elements[i]);
        NextElement(elements, i, gap, indent, partial);
        partial := partial + [part];
        i := i + 1;
      }
      assert partial == PrintElements(elements, gap, indent);
      v := Enclose(LBRACKET, partial, RBRACKET, gap, mind);
      gap := mind;
    }

    method StrObject(value: Value) returns (v: Text)
      requires value.Obj?
      modifies this`gap
      ensures gap == old(gap)
      ensures v == Print(value, old(gap), indent)
      decreases value, 0
    {
      var mind, members := gap, value.members;
      gap := gap + indent;
      var partial: seq<Text> := [];
      var i := 0;
      assert members[0..] == members;
      while i < |members|
        invariant 0 <= i <= |members| && gap == mind + indent
        invariant PrintMembers(members, gap, indent) == partial + PrintMembers(members[i..], gap, indent)
      {
        var part := Str(members[i].value);
        NextMember(members, i, gap, indent, partial);
        partial := partial + [Quote(members[i].key) + Colon(gap) + part];
        i := i + 1;
      }
      assert partial == PrintMembers(members, gap, indent);
      v := Enclose(LBRACE, partial, RBRACE, gap, mind);
      gap := mind;
    }

    method Stringify(value: Value, space: Space) returns (text: Text)
      modifies this
      ensures text == Print(value, [], IndentOf(space))
    {
      gap, indent := [], [];
      match space {
        case NoSpace =>
        case Count(n) =>
          var i := 0;
          while i < n
            invariant i == if n <= 0 then 0 else |indent|
            invariant 0 <= i && (n >= 0 ==> i <= n) && gap == []
            invariant indent == Spaces(i)
          {
            indent := indent + [SPACE];
            i := i + 1;
          }
        case Filler(t) =>
          indent := t;
      }
      text := Str(value);
    }
  }

  // ----- The tokens of the printed text.

  function Break(gap: Text): seq<Token> {
    if gap == [] then [] else [Blank(NewLine(gap))]
  }

  /** The break before a closing bracket: to the outer gap, if anything is indented at all. */
  function Return(gap: Text, mind: Text): seq<Token> {
    if gap == [] then [] else [Blank(NewLine(mind))]
  }

  function ColonTokens(gap: Text): seq<Token> {
    if gap == [] then [Punct(COLON)] else [Punct(COLON), Blank([SPACE])]
  }

  function Bracketed(open: Unit, inner: seq<Token>, close: Unit, gap: Text, mind: Text): seq<Token> {
    [Punct(open)] + (Break(gap) + (inner + (Return(gap, mind) + [Punct(close)])))
  }

  function Tokens(v: Value, gap: Text, indent: Text): seq<Token>
    decreases v
  {
    match v
    case Null => [Literal(NullWord)]
    case Boolean(b) => [Literal(if b then TrueWord else FalseWord)]
    case Num(n) => [Numeral(n)]
    case NotFinite => [Literal(NullWord)]
    case Str(s) => [Quoted(s)]
    case Arr(elements) =>
      if elements == [] then [Punct(LBRACKET), Punct(RBRACKET)]
      else Bracketed(LBRACKET, ElementTokens(elements, gap + indent, indent), RBRACKET, gap + indent, gap)
    case Obj(members) =>
      if members == [] then [Punct(LBRACE), Punct(RBRACE)]
      else Bracketed(LBRACE, MemberTokens(members, gap + indent, indent), RBRACE, gap + indent, gap)
  }

  function ElementTokens(elements: seq<Value>, gap: Text, indent: Text): seq<Token>
    requires elements != []
    decreases elements
  {
    if |elements| == 1 then Tokens(elements[0], gap, indent)
    else
      Tokens(elements[0], gap, indent) + ([Punct(COMMA)] + (Break(gap) + ElementTokens(elements[1..], gap, indent)))
  }

  function KeyTokens(key: Text, gap: Text): seq<Token> {
    [Quoted(key)] + ColonTokens(gap)
  }

  function MemberTokens(members: seq<Member>, gap: Text, indent: Text): seq<Token>
    requires members != []
    decreases members
  {
    var first := KeyTokens(members[0].key, gap) + Tokens(members[0].value, gap, indent);
    if |members| == 1 then first
    else first + ([Punct(COMMA)] + (Break(gap) + MemberTokens(members[1..], gap, indent)))
  }

  lemma RenderFirst(k: Token, ks: seq<Token>)
    ensures Render([k] + ks) == TokenText(k) + Render(ks)
  {
    assert ([k] + ks)[1..] == ks;
  }

  lemma RenderOne(k: Token)
    ensures Render([k]) == TokenText(k)
  {
    assert [k][1..] == [];
  }

  lemma RenderColon(gap: Text)
    ensures Render(ColonTokens(gap)) == Colon(gap)
  {
    RenderOne(Punct(COLON));
    RenderOne(Blank([SPACE]));
    RenderFirst(Punct(COLON), [Blank([SPACE])]);
    assert [Punct(COLON), Blank([SPACE])] == [Punct(COLON)] + [Blank([SPACE])];
  }

  lemma RenderBracketed(open: Unit, inner: seq<Token>, close: Unit, gap: Text, mind: Text)
    ensures Render(Bracketed(open, inner, close, gap, mind)) ==
            if gap == [] then [open] + (Render(inner) + [close])
            else [open] + (NewLine(gap) + (Render(inner) + (NewLine(mind) + [close])))
  {
    RenderOne(Punct(close));
    var tail := Return(gap, mind) + [Punct(close)];
    RenderAppend(inner, tail);
    RenderFirst(Punct(open), Break(gap) + (inner + tail));
    if gap == [] {
      assert tail == [Punct(close)] && Break(gap) + (inner + tail) == inner + tail;
    } else {
      RenderFirst(Blank(NewLine(mind)), [Punct(close)]);
      RenderFirst(Blank(NewLine(gap)), inner + tail);
    }
  }

  function Separator(gap: Text): Text {
    if gap == [] then [COMMA] else [COMMA] + NewLine(gap)
  }

  lemma RenderSeparated(first: seq<Token>, gap: Text, others: seq<Token>)
    ensures Render(first + ([Punct(COMMA)] + (Break(gap) + others))) ==
            Render(first) + (Separator(gap) + Render(others))
  {
    RenderAppend(first, [Punct(COMMA)] + (Break(gap) + others));
    RenderFirst(Punct(COMMA), Break(gap) + others);
    if gap == [] {
      assert Break(gap) + others == others;
    } else {
      RenderFirst(Blank(NewLine(gap)), others);
      assert [COMMA] + (NewLine(gap) + Render(others)) == ([COMMA] + NewLine(gap)) + Render(others);
    }
  }

  /** What is printed is the text of the tokens. */
  lemma {:induction false} PrintIsTokens(v: Value, gap: Text, indent: Text)
    ensures Print(v, gap, indent) == Render(Tokens(v, gap, indent))
    decreases v
  {
    match v
    case Null => RenderOne(Literal(NullWord));
    case Boolean(b) => RenderOne(Literal(if b then TrueWord else FalseWord));
    case Num(n) => RenderOne(Numeral(n));
    case NotFinite => RenderOne(Literal(NullWord));
    case Str(s) => RenderOne(Quoted(s));
    case Arr(elements) =>
      if elements == [] {
        RenderEmpty(LBRACKET, RBRACKET);
      } else {
        ElementsAreTokens(elements, gap + indent, indent);
        RenderBracketed(LBRACKET, ElementTokens(elements, gap + indent, indent), RBRACKET, gap + indent, gap);
      }
    case Obj(members) =>
      if members == [] {
        RenderEmpty(LBRACE, RBRACE);
      } else {
        MembersAreTokens(members, gap + indent, indent);
        RenderBracketed(LBRACE, MemberTokens(members, gap + indent, indent), RBRACE, gap + indent, gap);
      }
  }

  lemma RenderEmpty(open: Unit, close: Unit)
    ensures Render([Punct(open), Punct(close)]) == [open, close]
  {
    RenderOne(Punct(close));
    RenderFirst(Punct(open), [Punct(close)]);
    assert [Punct(open), Punct(close)] == [Punct(open)] + [Punct(close)];
  }

  lemma {:induction false} ElementsAreTokens(elements: seq<Value>, gap: Text, indent: Text)
    requires elements != []
    ensures Join(PrintElements(elements, gap, indent), Separator(gap)) == Render(ElementTokens(elements, gap, indent))
    decreases elements
  {
    PrintIsTokens(elements[0], gap, indent);
    if |elements| > 1 {
      ElementsAreTokens(elements[1..], gap, indent);
      RenderSeparated(Tokens(elements[0], gap, indent), gap, ElementTokens(elements[1..], gap, indent));
      assert PrintElements(elements, gap, indent)[1..] == PrintElements(elements[1..], gap, indent);
    }
  }

  lemma {:induction false} MembersAreTokens(members: seq<Member>, gap: Text, indent: Text)
    requires members != []
    ensures Join(PrintMembers(members, gap, indent), Separator(gap)) == Render(MemberTokens(members, gap, indent))
    decreases members
  {
    var key, value := members[0].key, members[0].value;
    PrintIsTokens(value, gap, indent);
    RenderColon(gap);
    RenderFirst(Quoted(key), ColonTokens(gap));
    RenderAppend(KeyTokens(key, gap), Tokens(value, gap, indent));
    if |members| > 1 {
      MembersAreTokens(members[1..], gap, indent);
      RenderSeparated(KeyTokens(key, gap) + Tokens(value, gap, indent), gap, MemberTokens(members[1..], gap, indent));
      assert PrintMembers(members, gap, indent)[1..] == PrintMembers(members[1..], gap, indent);
    }
  }
}
