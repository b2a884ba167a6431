/** Exactly which texts stage one of parse leaves with the same meaning (www/js/json2.js). */
module JsonStageOneExactly {
  import opened Wrappers
  import opened JsonText
  import opened JsonParser
  import opened JsonFilter
  import opened JsonStageOne

  predicate NoNull(t: Text, i: nat, j: nat) {
    forall x | i <= x < j <= |t| :: t[x] != 0
  }

  /** From position i on there is no null character, and every backslash belongs to an escape
      sequence. */
  predicate Unspoilt(t: Text, i: nat)
    requires i <= |t|
  {
    NoNull(t, i, |t|) && BACKSLASH !in HideEscapes(t, i)
  }

  // ----- A text that can be read is unspoilt.

  lemma CharNoNull(t: Text, i: nat)
    requires i < |t| && CharAt(t, i).Found?
    ensures NoNull(t, i, CharAt(t, i).next)
  {
    if t[i] == BACKSLASH && t[i + 1] == LOWER_U {
      HexIsHex(t, i + 2, 4);
    }
  }

  lemma {:induction false} StringNoNull(t: Text, i: nat)
    requires i <= |t| && StringAt(t, i).Found?
    ensures NoNull(t, i, StringAt(t, i).next)
    decreases |t| - i
  {
    if t[i] != QUOTE {
      CharNoNull(t, i);
      StringNoNull(t, CharAt(t, i).next);
    }
  }

  /** A stretch that is unspoilt itself, before the rest. */
  lemma UnspoiltBefore(t: Text, i: nat, j: nat, hidden: Text)
    requires i <= j <= |t| && Unspoilt(t, j) && NoNull(t, i, j)
    requires BACKSLASH !in hidden && HideEscapes(t, i) == hidden + HideEscapes(t, j)
    ensures Unspoilt(t, i)
  {}

  lemma NoBackslashInLiteral(body: Text)
    requires Clean(body)
    ensures BACKSLASH !in [QUOTE] + (body + [QUOTE])
  {}

  lemma StringUnspoilt(t: Text, i: nat)
    requires i < |t| && t[i] == QUOTE && StringAt(t, i + 1).Found? && Unspoilt(t, StringAt(t, i + 1).next)
    ensures Unspoilt(t, i)
  {
    var j := StringAt(t, i + 1).next;
    StringNoNull(t, i + 1);
    var body := HideString(t, i + 1);
    Associate(body, [QUOTE], HideEscapes(t, j));
    Associate([QUOTE], body + [QUOTE], HideEscapes(t, j));
    NoBackslashInLiteral(body);
    UnspoiltBefore(t, i, j, [QUOTE] + (body + [QUOTE]));
  }

  lemma TokenUnspoilt(t: Text, i: nat)
    requires i < |t| && TokenAt(t, i).Found? && Unspoilt(t, TokenAt(t, i).next)
    ensures Unspoilt(t, i)
  {
    if t[i] == QUOTE {
      StringUnspoilt(t, i);
    } else {
      var j := PlainTokenChars(t, i);
      CopyPlain(t, i, j);
      UnspoiltBefore(t, i, j, t[i..j]);
    }
  }

  lemma {:induction false} LexedIsUnspoilt(t: Text, i: nat)
    requires i <= |t| && Lex(t, i).Some?
    ensures Unspoilt(t, i)
    decreases |t| - i
  {
    if i < |t| {
      if IsBlank(t[i]) {
        LexedIsUnspoilt(t, i + 1);
      } else {
        LexedIsUnspoilt(t, TokenAt(t, i).next);
        TokenUnspoilt(t, i);
      }
    }
  }

  // ----- An unspoilt text is read as its image is.

  lemma {:induction false} UnspoiltAfter(t: Text, i: nat, j: nat)
    requires i <= j <= |t| && Unspoilt(t, i) && forall x | i <= x < j :: t[x] != BACKSLASH
    ensures Unspoilt(t, j)
    decreases j - i
  {
    if i < j {
      assert HideEscapes(t, i) == [t[i]] + HideEscapes(t, i + 1);
      UnspoiltAfter(t, i + 1, j);
    }
  }

  lemma EscapeIsHandled(t: Text, i: nat)
    requires i < |t| && EscapeLength(t, i) > 0
    ensures HandledUpTo(t, i, i + EscapeLength(t, i))
  {
    assert forall x | i + 2 <= x < i + EscapeLength(t, i) :: IsHex(t[x]);
  }

  /** A backslash starts an escape sequence, so what follows it is not mishandled. */
  lemma UnspoiltEscape(t: Text, i: nat)
    requires i < |t| && Unspoilt(t, i) && t[i] == BACKSLASH
    ensures EscapeLength(t, i) > 0 && Unspoilt(t, i + EscapeLength(t, i))
  {
    var n := EscapeLength(t, i);
    assert HideEscapes(t, i)[0] == if n > 0 then AT else BACKSLASH;
    assert HideEscapes(t, i) == [AT] + HideEscapes(t, i + n);
  }

  /** A stretch without backslashes comes from the same stretch. */
  lemma {:induction false} CopiedBack(t: Text, i: nat, u: Text, k: nat, m: nat) returns (j: nat)
    requires Meets(t, i, u, k) && k <= m <= |u| && forall x | k <= x < m :: u[x] != BACKSLASH
    ensures i <= j <= |t| && t[i..j] == u[k..m] && Meets(t, j, u, m)
    ensures forall x | i <= x < j :: t[x] != BACKSLASH
    decreases m - k
  {
    j := i;
    if k < m {
      SameStart(t, i, u, k);
      j := CopiedBack(t, i + 1, u, k + 1, m);
      SliceFirst(u, k, m);
      SliceFirst(t, i, j);
    }
  }

  /** The image of an escape sequence is read as the sequence is. */
  lemma EscapeBack(t: Text, i: nat, u: Text, k: nat) returns (j: nat)
    requires Meets(t, i, u, k) && i < |t| && t[i] == BACKSLASH && Unspoilt(t, i)
    requires k < |u| && CharAt(u, k).Found?
    ensures CharAt(t, i) == Found(CharAt(u, k).value, j) && Meets(t, j, u, CharAt(u, k).next)
    ensures Unspoilt(t, j)
  {
    UnspoiltEscape(t, i);
    EscapeIsHandled(t, i);
    j := i + EscapeLength(t, i);
    Copied(t, i, j, u, k);
    assert u[k..k + (j - i)][0] == u[k] && u[k..k + (j - i)][1] == u[k + 1];
    if t[i + 1] == LOWER_U {
      assert u[k + 2..k + 6] == u[k..k + 6][2..] == t[i..j][2..] == t[i + 2..j];
      SameHex(t, i + 2, u, k + 2, 4);
    }
  }

  lemma CharIsItself(t: Text, i: nat, u: Text, k: nat)
    requires Meets(t, i, u, k) && i < |t| && t[i] != 0 && t[i] != BACKSLASH && k < |u| && CharAt(u, k).Found?
    ensures CharAt(t, i) == Found(CharAt(u, k).value, i + 1) && Meets(t, i + 1, u, CharAt(u, k).next)
  {
    SameStart(t, i, u, k);
    if Mishandled(t[i]) {
      EscapeMeansItself(t, i, u, k);
    }
  }

  lemma PlainBack(t: Text, i: nat, u: Text, k: nat)
    requires Meets(t, i, u, k) && i < |t| && Unspoilt(t, i) && t[i] != BACKSLASH && k < |u| && CharAt(u, k).Found?
    ensures CharAt(t, i) == Found(CharAt(u, k).value, i + 1) && Meets(t, i + 1, u, CharAt(u, k).next)
    ensures Unspoilt(t, i + 1)
  {
    UnspoiltAfter(t, i, i + 1);
    assert t[i] != 0;
    CharIsItself(t, i, u, k);
  }

  lemma CharBack(t: Text, i: nat, u: Text, k: nat) returns (j: nat)
    requires Meets(t, i, u, k) && Unspoilt(t, i) && k < |u| && CharAt(u, k).Found?
    ensures i < |t| && t[i] != QUOTE && CharAt(t, i) == Found(CharAt(u, k).value, j)
    ensures Meets(t, j, u, CharAt(u, k).next) && Unspoilt(t, j)
  {
    SameStart(t, i, u, k);
    if t[i] == BACKSLASH {
      j := EscapeBack(t, i, u, k);
    } else {
      j := i + 1;
      PlainBack(t, i, u, k);
    }
  }

  lemma {:induction false} StringBack(t: Text, i: nat, u: Text, k: nat) returns (j: nat)
    requires Meets(t, i, u, k) && Unspoilt(t, i) && k <= |u| && StringAt(u, k).Found?
    ensures StringAt(t, i) == Found(StringAt(u, k).value, j)
    ensures Meets(t, j, u, StringAt(u, k).next) && Unspoilt(t, j)
    decreases |u| - k
  {
    SameStart(t, i, u, k);
    if u[k] == QUOTE {
      j := i + 1;
      UnspoiltAfter(t, i, j);
    } else {
      var c := CharAt(u, k);
      var n := CharBack(t, i, u, k);
      j := StringBack(t, n, u, c.next);
      StringStep(t, i, c.value, n, StringAt(u, c.next).value, j);
    }
  }

  lemma NumberBack(t: Text, i: nat, u: Text, k: nat) returns (j: nat)
    requires Meets(t, i, u, k) && k < |u| && NumberAt(u, k).Found? && Lex(u, NumberAt(u, k).next).Some?
    ensures i < |t| && NumberAt(t, i) == Found(NumberAt(u, k).value, j) && Meets(t, j, u, NumberAt(u, k).next)
    ensures forall x | i <= x < j :: t[x] != BACKSLASH
  {
    var m := NumberAt(u, k).next;
    NumberChars(u, k);
    NumberIsClear(u, k);
    j := CopiedBack(t, i, u, k, m);
    SameStart(t, j, u, m);
    NumberMoves(u, k, t, i, j);
  }

  lemma WordBack(t: Text, i: nat, u: Text, k: nat) returns (j: nat)
    requires Meets(t, i, u, k) && k <= |u| && WordAt(u, k).Found?
    ensures i <= |t| && WordAt(t, i) == Found(WordAt(u, k).value, j) && Meets(t, j, u, WordAt(u, k).next)
    ensures forall x | i <= x < j :: t[x] != BACKSLASH
  {
    var p := WordAt(u, k);
    WordChars(u, k);
    j := CopiedBack(t, i, u, k, p.next);
    ReadWord(t, i, j, p.value);
  }

  lemma PlainTokenBack(t: Text, i: nat, u: Text, k: nat) returns (j: nat)
    requires Meets(t, i, u, k) && k < |u| && TokenAt(u, k).Found? && u[k] != QUOTE && u[k] != BACKSLASH
    requires Lex(u, TokenAt(u, k).next).Some?
    ensures i < |t| && TokenAt(t, i) == Found(TokenAt(u, k).value, j) && Meets(t, j, u, TokenAt(u, k).next)
    ensures forall x | i <= x < j :: t[x] != BACKSLASH
  {
    SameStart(t, i, u, k);
    if IsPunct(u[k]) {
      j := i + 1;
    } else if u[k] == MINUS || IsDigit(u[k]) {
      j := NumberBack(t, i, u, k);
    } else {
      j := WordBack(t, i, u, k);
    }
  }

  lemma NoBackslashFirst(t: Text, i: nat)
    requires i < |t| && TokenAt(t, i).Found?
    ensures t[i] != BACKSLASH
  {
    if !IsPunct(t[i]) && t[i] != QUOTE && t[i] != MINUS && !IsDigit(t[i]) {
      WordStarts(t, i);
    }
  }

  lemma QuotedBack(t: Text, i: nat, u: Text, k: nat) returns (j: nat)
    requires Meets(t, i, u, k) && Unspoilt(t, i) && k < |u| && TokenAt(u, k).Found? && u[k] == QUOTE
    ensures i < |t| && TokenAt(t, i) == Found(TokenAt(u, k).value, j)
    ensures Meets(t, j, u, TokenAt(u, k).next) && Unspoilt(t, j)
  {
    SameStart(t, i, u, k);
    UnspoiltAfter(t, i, i + 1);
    j := StringBack(t, i + 1, u, k + 1);
  }

  lemma TokenBack(t: Text, i: nat, u: Text, k: nat) returns (j: nat)
    requires Meets(t, i, u, k) && Unspoilt(t, i) && k < |u| && TokenAt(u, k).Found?
    requires Lex(u, TokenAt(u, k).next).Some?
    ensures i < |t| && TokenAt(t, i) == Found(TokenAt(u, k).value, j)
    ensures Meets(t, j, u, TokenAt(u, k).next) && Unspoilt(t, j)
  {
    NoBackslashFirst(u, k);
    if u[k] == QUOTE {
      j := QuotedBack(t, i, u, k);
    } else {
      j := PlainTokenBack(t, i, u, k);
      UnspoiltAfter(t, i, j);
    }
  }

  /** Where the image is read on, so is the text. */
  lemma FirstBack(t: Text, i: nat, u: Text, k: nat)
    requires Meets(t, i, u, k) && k < |u| && (IsBlank(u[k]) || TokenAt(u, k).Found?)
    ensures i < |t| && t[i] == u[k]
  {
    if !IsBlank(u[k]) {
      NoBackslashFirst(u, k);
    }
    SameStart(t, i, u, k);
  }

  lemma BlankBack(t: Text, i: nat, u: Text, k: nat)
    requires Meets(t, i, u, k) && Unspoilt(t, i) && i < |t| && IsBlank(t[i])
    ensures Meets(t, i + 1, u, k + 1) && Unspoilt(t, i + 1)
  {
    SameStart(t, i, u, k);
    UnspoiltAfter(t, i, i + 1);
  }

  /** The same token, and the same reading after it. */
  lemma LexStep(t: Text, i: nat, u: Text, k: nat)
    requires i < |t| && k < |u| && !IsBlank(t[i]) && !IsBlank(u[k]) && TokenAt(t, i).Found? && TokenAt(u, k).Found?
    requires TokenAt(t, i).value == TokenAt(u, k).value
    requires Lex(t, TokenAt(t, i).next) == Lex(u, TokenAt(u, k).next)
    ensures Lex(t, i) == Lex(u, k)
  {}

  lemma {:induction false} LexBack(t: Text, i: nat, u: Text, k: nat)
    requires Meets(t, i, u, k) && Unspoilt(t, i) && k <= |u| && Lex(u, k).Some?
    ensures Lex(t, i) == Lex(u, k)
    decreases |u| - k
  {
    if k == |u| {
      SameStart(t, i, u, k);
    } else {
      FirstBack(t, i, u, k);
      if IsBlank(u[k]) {
        BlankBack(t, i, u, k);
        LexBack(t, i + 1, u, k + 1);
      } else {
        var j := TokenBack(t, i, u, k);
        LexBack(t, j, u, TokenAt(u, k).next);
        LexStep(t, i, u, k);
      }
    }
  }

  /** The start of the text goes to the start of its image. */
  lemma ImageMeets(t: Text) returns (u: Text)
    ensures u == EscapeMishandled(t) && Meets(t, 0, u, 0)
  {
    u := EscapeMishandled(t);
    assert t[0..] == t;
    EscapedIsSuffix(t, 0);
    assert u[0..|u|] == u;
  }

  /** A text that stage one makes readable had that meaning before exactly if it holds no null
      character and no backslash outside an escape sequence; otherwise it had no meaning. */
  lemma StageOneExactly(t: Text)
    requires Parse(StageOne(t)).Some?
    ensures Parse(t) == Parse(StageOne(t)) <==> 0 !in t && BACKSLASH !in HideEscapes(t, 0)
    ensures Parse(t) != Parse(StageOne(t)) ==> Parse(t).None?
  {
    var u := ImageMeets(t);
    if Parse(t).Some? {
      LexedIsUnspoilt(t, 0);
      StageOneKeepsMeaning(t, Parse(t).value);
    } else if Unspoilt(t, 0) && StageOne(t) == u {
      LexBack(t, 0, u, 0);
    }
  }

  // ----- Both conditions are needed.

  lemma OneString(u: Text, s: Text)
    requires u != [] && u[0] == QUOTE && StringAt(u, 1) == Found(s, |u|)
    ensures Parse(u) == Some(Str(s))
  {
    var none: seq<Token> := [];
    assert Lex(u, |u|) == Some(none) && TokenAt(u, 0) == Found(Quoted(s), |u|);
    assert [Quoted(s)] + none == [Quoted(s)];
    assert Lex(u, 0) == Some([Quoted(s)]);
    assert ValueAt([Quoted(s)], 0) == Found(Str(s), 1);
  }

  /** A null character is not allowed in a string, its escape sequence is. */
  lemma NullBecomesReadable()
    ensures Parse([QUOTE, 0, QUOTE]).None? && Parse(StageOne([QUOTE, 0, QUOTE])) == Some(Str([0]))
  {
    var t: Text := [QUOTE, 0, QUOTE];
    assert CharAt(t, 1).Failed? && t[1] == 0;
    var u := ImageMeets(t);
    SameStart(t, 0, u, 0);
    EscapeMeansItself(t, 1, u, 1);
    SameStart(t, 2, u, 7);
    SameStart(t, 3, u, 8);
    assert StringAt(u, 7) == Found([], 8);
    StringStep(u, 1, 0, 7, [], 8);
    var nothing: Text := [];
    assert [0] + nothing == [0];
    OneString(u, [0]);
  }

  /** Characters that stand for themselves in a string. */
  predicate Plain(s: Text) {
    forall x | 0 <= x < |s| :: s[x] >= 0x20 && s[x] != QUOTE && s[x] != BACKSLASH
  }

  lemma {:induction false} PlainString(u: Text, k: nat, m: nat, s: Text)
    requires Spans(u, k, m, s) && Plain(s) && m < |u| && u[m] == QUOTE
    ensures StringAt(u, k) == Found(s, m + 1)
    decreases |s|
  {
    if s != [] {
      SpanAt(u, k, m, s, 0);
      assert u[k + 1..m] == s[1..];
      PlainString(u, k + 1, m, s[1..]);
      StringStep(u, k, s[0], k + 1, s[1..], m + 1);
      assert [s[0]] + s[1..] == s;
    }
  }

  lemma {:induction false} HexIsPlain(n: nat, k: nat)
    ensures Plain(HexDigits(n, k))
  {
    if k > 0 {
      HexIsPlain(n / 16, k - 1);
    }
  }

  /** A backslash before a mishandled character is no escape sequence; before the escape sequence
      of that character it escapes the other backslash. */
  lemma BackslashBecomesReadable(c: Unit)
    requires Mishandled(c)
    ensures var t := [QUOTE, BACKSLASH, c, QUOTE];
            Parse(t).None? && Parse(StageOne(t)) == Some(Str([BACKSLASH, LOWER_U] + HexDigits(c, 4)))
  {
    var t: Text := [QUOTE, BACKSLASH, c, QUOTE];
    NotReadable(t, c);
    var digits := BackslashImage(t, c);
    BackslashString(StageOne(t), digits);
  }

  lemma NotReadable(t: Text, c: Unit)
    requires Mishandled(c) && BackslashIn(t, c)
    ensures Parse(t).None?
  {
    assert CharAt(t, 1).Failed? && TokenAt(t, 0).Failed?;
  }

  lemma BackslashString(u: Text, digits: Text)
    requires |u| == 9 && u[0] == QUOTE && u[8] == QUOTE && CharAt(u, 1) == Found(BACKSLASH, 3)
    requires Spans(u, 3, 8, [LOWER_U] + digits) && Plain([LOWER_U] + digits)
    ensures Parse(u) == Some(Str([BACKSLASH, LOWER_U] + digits))
  {
    PlainString(u, 3, 8, [LOWER_U] + digits);
    StringStep(u, 1, BACKSLASH, 3, [LOWER_U] + digits, 9);
    assert [BACKSLASH] + ([LOWER_U] + digits) == [BACKSLASH, LOWER_U] + digits;
    OneString(u, [BACKSLASH, LOWER_U] + digits);
  }

  predicate BackslashIn(t: Text, c: Unit) {
    |t| == 4 && t[0] == QUOTE && t[1] == BACKSLASH && t[2] == c && t[3] == QUOTE
  }

  lemma BackslashImage(t: Text, c: Unit) returns (digits: Text)
    requires Mishandled(c) && BackslashIn(t, c)
    ensures var u := StageOne(t);
            |u| == 9 && u[0] == QUOTE && u[8] == QUOTE && CharAt(u, 1) == Found(BACKSLASH, 3)
            && Spans(u, 3, 8, [LOWER_U] + digits)
    ensures digits == HexDigits(c, 4) && Plain([LOWER_U] + digits)
  {
    StageOneEscapes(t, 2);
    var u := ImageMeets(t);
    BackslashMeets(t, u, c);
    SameStart(t, 1, u, 1);
    digits := ImageSplit(t, u, c);
    SameStart(t, 3, u, 8);
    SameStart(t, 4, u, 9);
  }

  lemma ImageSplit(t: Text, u: Text, c: Unit) returns (digits: Text)
    requires Mishandled(c) && BackslashIn(t, c) && Meets(t, 2, u, 2)
    ensures digits == HexDigits(c, 4) && Plain([LOWER_U] + digits) && Meets(t, 3, u, 8)
    ensures u[2] == BACKSLASH && Spans(u, 3, 8, [LOWER_U] + digits)
  {
    digits := HexText4(c);
    Advance(t, 2, u, 2);
    SpanRest(u, 2, 8, BACKSLASH, [LOWER_U] + digits);
  }

  lemma HexText4(c: Unit) returns (digits: Text)
    ensures digits == HexDigits(c, 4) && |digits| == 4 && Plain([LOWER_U] + digits)
    ensures UnicodeEscape(c) == [BACKSLASH] + ([LOWER_U] + digits)
  {
    digits := HexDigits(c, 4);
    Hex4(c);
    HexIsPlain(c, 4);
  }

  lemma SpanRest(u: Text, k: nat, m: nat, c: Unit, rest: Text)
    requires Spans(u, k, m, [c] + rest)
    ensures u[k] == c && Spans(u, k + 1, m, rest)
  {
    var n := SpanSplit(u, k, m, [c], rest);
    SpanAt(u, k, n, [c], 0);
  }

  lemma StageOneEscapes(t: Text, k: nat)
    requires k < |t| && Mishandled(t[k])
    ensures StageOne(t) == EscapeMishandled(t)
  {}

  lemma BackslashMeets(t: Text, u: Text, c: Unit)
    requires Mishandled(c) && BackslashIn(t, c) && Meets(t, 0, u, 0)
    ensures Meets(t, 1, u, 1) && Meets(t, 2, u, 2) && u[0] == QUOTE
  {
    SameStart(t, 0, u, 0);
    SameStart(t, 1, u, 1);
  }
}
