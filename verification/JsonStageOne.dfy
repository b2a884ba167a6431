/** Stage one of parse keeps the meaning of every JSON text (www/js/json2.js). */
module JsonStageOne {
  import opened Wrappers
  import opened JsonText
  import opened JsonPrinter
  import opened JsonParser
  import opened JsonRoundTrip
  import opened JsonFilter

  function Image(c: Unit): (w: Text)
    ensures |w| >= 1
  {
    if Mishandled(c) then UnicodeEscape(c) else [c]
  }

  /** What the text from position i on becomes. */
  function Escaped(t: Text, i: nat): Text
    requires i <= |t|
    decreases |t| - i
  {
    if i == |t| then [] else Image(t[i]) + Escaped(t, i + 1)
  }

  /** Position k of the new text is where position i of the old one went. */
  predicate Meets(t: Text, i: nat, u: Text, k: nat) {
    i <= |t| && Spans(u, k, |u|, Escaped(t, i))
  }

  lemma {:induction false} EscapedIsSuffix(t: Text, i: nat)
    requires i <= |t|
    ensures EscapeMishandled(t[i..]) == Escaped(t, i)
    decreases |t| - i
  {
    if i < |t| {
      EscapedIsSuffix(t, i + 1);
      assert t[i..][1..] == t[i + 1..];
    }
  }

  lemma Advance(t: Text, i: nat, u: Text, k: nat)
    requires Meets(t, i, u, k) && i < |t|
    ensures Spans(u, k, k + |Image(t[i])|, Image(t[i])) && Meets(t, i + 1, u, k + |Image(t[i])|)
  {
    var image, rest := Image(t[i]), Escaped(t, i + 1);
    assert Escaped(t, i) == image + rest;
    var m := SpanSplit(u, k, |u|, image, rest);
  }

  /** The two texts end together, and start with the same character or with an escape. */
  lemma SameStart(t: Text, i: nat, u: Text, k: nat)
    requires Meets(t, i, u, k)
    ensures i == |t| <==> k == |u|
    ensures i < |t| ==> u[k] == if Mishandled(t[i]) then BACKSLASH else t[i]
    ensures i < |t| && !Mishandled(t[i]) ==> u[k] == t[i] && Meets(t, i + 1, u, k + 1)
  {
    if i < |t| {
      Advance(t, i, u, k);
      SpanAt(u, k, k + |Image(t[i])|, Image(t[i]), 0);
    }
  }

  predicate HandledUpTo(t: Text, i: nat, j: nat) {
    i <= j <= |t| && forall x | i <= x < j :: !Mishandled(t[x])
  }

  lemma SliceFirst(t: Text, i: nat, j: nat)
    requires i < j <= |t|
    ensures t[i..j] == [t[i]] + t[i + 1..j]
  {}

  /** A stretch without mishandled characters is copied. */
  lemma {:induction false} Copied(t: Text, i: nat, j: nat, u: Text, k: nat)
    requires Meets(t, i, u, k) && HandledUpTo(t, i, j)
    ensures k + (j - i) <= |u| && u[k..k + (j - i)] == t[i..j] && Meets(t, j, u, k + (j - i))
    decreases j - i
  {
    if i < j {
      SameStart(t, i, u, k);
      Copied(t, i + 1, j, u, k + 1);
      SliceFirst(u, k, k + (j - i));
      SliceFirst(t, i, j);
    }
  }

  lemma StaysClear(t: Text, i: nat, u: Text, k: nat)
    requires Meets(t, i, u, k) && Clear(t, i)
    ensures Clear(u, k)
  {
    SameStart(t, i, u, k);
  }

  lemma NumberIsHandled(t: Text, i: nat)
    requires i < |t| && NumberAt(t, i).Found?
    ensures HandledUpTo(t, i, NumberAt(t, i).next)
  {
    NumberChars(t, i);
  }

  lemma StretchCopied(t: Text, i: nat, j: nat, u: Text, k: nat) returns (m: nat)
    requires Meets(t, i, u, k) && HandledUpTo(t, i, j) && Clear(t, j)
    ensures Stretch(t, i, j, u, k, m) && Meets(t, j, u, m)
  {
    m := k + (j - i);
    Copied(t, i, j, u, k);
    StaysClear(t, j, u, m);
  }

  lemma SameNumber(t: Text, i: nat, u: Text, k: nat) returns (m: nat)
    requires Meets(t, i, u, k) && i < |t| && NumberAt(t, i).Found? && Lex(t, NumberAt(t, i).next).Some?
    ensures k < |u| && NumberAt(u, k) == Found(NumberAt(t, i).value, m) && Meets(t, NumberAt(t, i).next, u, m)
  {
    NumberIsHandled(t, i);
    NumberIsClear(t, i);
    m := StretchCopied(t, i, NumberAt(t, i).next, u, k);
    NumberMoves(t, i, u, k, m);
  }

  // ----- Strings.

  lemma {:induction false} SameHex(t: Text, i: nat, u: Text, k: nat, n: nat)
    requires i + n <= |t| && k + n <= |u| && u[k..k + n] == t[i..i + n]
    ensures HexAt(u, k, n) == HexAt(t, i, n)
  {
    if n > 0 {
      assert u[k..k + (n - 1)] == u[k..k + n][..n - 1] == t[i..i + n][..n - 1] == t[i..i + (n - 1)];
      SameHex(t, i, u, k, n - 1);
      assert u[k + n - 1] == u[k..k + n][n - 1] == t[i..i + n][n - 1] == t[i + n - 1];
    }
  }

  lemma {:induction false} HexIsHandled(t: Text, i: nat, n: nat)
    requires i + n <= |t| && HexAt(t, i, n).Some?
    ensures HandledUpTo(t, i, i + n)
  {
    if n > 0 {
      HexIsHandled(t, i, n - 1);
    }
  }

  lemma SameUnicode(t: Text, i: nat, u: Text, k: nat)
    requires Meets(t, i, u, k) && i + 6 <= |t| && t[i] == BACKSLASH && t[i + 1] == LOWER_U && HexAt(t, i + 2, 4).Some?
    ensures k + 6 <= |u| && u[k] == BACKSLASH && u[k + 1] == LOWER_U && HexAt(u, k + 2, 4) == HexAt(t, i + 2, 4)
    ensures Meets(t, i + 6, u, k + 6)
  {
    SameStart(t, i, u, k);
    SameStart(t, i + 1, u, k + 1);
    HexIsHandled(t, i + 2, 4);
    Copied(t, i + 2, i + 6, u, k + 2);
    SameHex(t, i + 2, u, k + 2, 4);
  }

  /** An escape sequence is copied. */
  lemma SameEscape(t: Text, i: nat, u: Text, k: nat) returns (m: nat)
    requires Meets(t, i, u, k) && i < |t| && t[i] == BACKSLASH && CharAt(t, i).Found?
    ensures k < |u| && u[k] == BACKSLASH
    ensures CharAt(u, k) == Found(CharAt(t, i).value, m) && Meets(t, CharAt(t, i).next, u, m)
  {
    if t[i + 1] == LOWER_U {
      SameUnicode(t, i, u, k);
      m := k + 6;
    } else {
      SameStart(t, i, u, k);
      SameStart(t, i + 1, u, k + 1);
      m := k + 2;
    }
  }

  /** A mishandled character becomes an escape sequence for itself. */
  lemma EscapeMeansItself(t: Text, i: nat, u: Text, k: nat)
    requires Meets(t, i, u, k) && i < |t| && Mishandled(t[i])
    ensures k < |u| && CharAt(u, k) == Found(t[i], k + 6) && Meets(t, i + 1, u, k + 6)
  {
    var c := t[i];
    Hex4(c);
    Advance(t, i, u, k);
    var w := [BACKSLASH, LOWER_U] + HexDigits(c, 4);
    SpanAt(u, k, k + 6, w, 0);
    SpanAt(u, k, k + 6, w, 1);
    var m := SpanSplit(u, k, k + 6, [BACKSLASH, LOWER_U], HexDigits(c, 4));
    assert Power16(4) == 16 * Power16(3) == 256 * Power16(2) == 0x1000 * Power16(1) == 0x10000;
    ReadHex(u, k + 2, c, 4);
  }

  lemma SameChar(t: Text, i: nat, u: Text, k: nat) returns (m: nat)
    requires Meets(t, i, u, k) && i < |t| && CharAt(t, i).Found?
    ensures var p := CharAt(t, i);
            k < |u| && u[k] != QUOTE && CharAt(u, k) == Found(p.value, m) && Meets(t, p.next, u, m)
  {
    SameStart(t, i, u, k);
    if Mishandled(t[i]) {
      EscapeMeansItself(t, i, u, k);
      m := k + 6;
    } else if t[i] == BACKSLASH {
      m := SameEscape(t, i, u, k);
    } else {
      m := k + 1;
    }
  }

  lemma {:induction false} SameString(t: Text, i: nat, u: Text, k: nat) returns (m: nat)
    requires Meets(t, i, u, k) && StringAt(t, i).Found?
    ensures StringAt(u, k) == Found(StringAt(t, i).value, m) && Meets(t, StringAt(t, i).next, u, m)
    decreases |t| - i
  {
    SameStart(t, i, u, k);
    if t[i] == QUOTE {
      m := k + 1;
    } else {
      var c := CharAt(t, i);
      var n := SameChar(t, i, u, k);
      m := SameString(t, c.next, u, n);
      StringStep(u, k, c.value, n, StringAt(t, c.next).value, m);
    }
  }

  // ----- Tokens.

  lemma WordIsHandled(w: Word)
    ensures forall x | 0 <= x < |WordText(w)| :: !Mishandled(WordText(w)[x])
  {}

  lemma SameWord(t: Text, i: nat, u: Text, k: nat) returns (m: nat)
    requires Meets(t, i, u, k) && WordAt(t, i).Found?
    ensures WordAt(u, k) == Found(WordAt(t, i).value, m) && Meets(t, WordAt(t, i).next, u, m)
  {
    var p := WordAt(t, i);
    WordIsHandled(p.value);
    forall x | i <= x < p.next ensures !Mishandled(t[x]) {
      SpanAt(t, i, p.next, WordText(p.value), x - i);
    }
    Copied(t, i, p.next, u, k);
    m := k + (p.next - i);
    ReadWord(u, k, m, p.value);
  }

  /** What the first character of a token says about its kind. */
  lemma WordStarts(t: Text, i: nat)
    requires i < |t| && WordAt(t, i).Found?
    ensures t[i] == 110 || t[i] == 116 || t[i] == 102
  {
    ReadWord(t, i, WordAt(t, i).next, WordAt(t, i).value);
  }

  lemma TokenIsHandled(t: Text, i: nat)
    requires i < |t| && TokenAt(t, i).Found?
    ensures !Mishandled(t[i])
  {
    if !IsPunct(t[i]) && t[i] != QUOTE && t[i] != MINUS && !IsDigit(t[i]) {
      WordStarts(t, i);
    }
  }

  lemma SameToken(t: Text, i: nat, u: Text, k: nat) returns (m: nat)
    requires Meets(t, i, u, k) && i < |t| && TokenAt(t, i).Found? && Lex(t, TokenAt(t, i).next).Some?
    ensures k < |u| && u[k] == t[i]
    ensures TokenAt(u, k) == Found(TokenAt(t, i).value, m) && Meets(t, TokenAt(t, i).next, u, m)
  {
    TokenIsHandled(t, i);
    SameStart(t, i, u, k);
    if IsPunct(t[i]) {
      m := k + 1;
    } else if t[i] == QUOTE {
      m := SameString(t, i + 1, u, k + 1);
    } else if t[i] == MINUS || IsDigit(t[i]) {
      m := SameNumber(t, i, u, k);
    } else {
      m := SameWord(t, i, u, k);
    }
  }

  lemma {:induction false} SameLex(t: Text, i: nat, u: Text, k: nat)
    requires Meets(t, i, u, k) && Lex(t, i).Some?
    ensures Lex(u, k) == Lex(t, i)
    decreases |t| - i
  {
    SameStart(t, i, u, k);
    if i < |t| {
      if IsBlank(t[i]) {
        SameLex(t, i + 1, u, k + 1);
      } else {
        var m := SameToken(t, i, u, k);
        SameLex(t, TokenAt(t, i).next, u, m);
      }
    }
  }

  /** Every text that is read as a value is read as the same value after stage one. */
  lemma StageOneKeepsMeaning(t: Text, v: Value)
    requires Parse(t) == Some(v)
    ensures Parse(StageOne(t)) == Some(v)
  {
    var u := EscapeMishandled(t);
    assert t[0..] == t;
    EscapedIsSuffix(t, 0);
    assert u[0..|u|] == u;
    SameLex(t, 0, u, 0);
  }

  /** Stages one and two of parse let every JSON text through, and keep its meaning. */
  lemma EveryTextPasses(t: Text, v: Value)
    requires Parse(t) == Some(v)
    ensures PassesFilter(StageOne(t)) && Parse(StageOne(t)) == Some(v)
  {
    StageOneKeepsMeaning(t, v);
    ValidPasses(StageOne(t), v);
  }

  /** In particular everything that is printed, which stage one leaves as it is. */
  lemma PrintedPasses(v: Value, indent: Text)
    requires Proper(v) && AllBlank(indent)
    ensures StageOne(Print(v, [], indent)) == Print(v, [], indent)
    ensures PassesFilter(StageOne(Print(v, [], indent)))
  {
    PrintIsTokens(v, [], indent);
    TokensReadable(v, [], indent);
    RenderHandled(Tokens(v, [], indent));
    RoundTrip(v, indent);
    EveryTextPasses(Print(v, [], indent), Normal(v));
  }
}
