/** Exactly which texts the text filter of parse lets through (www/js/json2.js). */
module JsonFilterExactly {
  import opened Wrappers
  import opened JsonText
  import opened JsonParser
  import opened JsonFilter
  import opened JsonFilterRejects

  // ----- The reference: a text as a row of pieces.

  /** The end of the string literal whose inside starts at position i: only escape sequences hold
      backslashes, and it does not go over the end of a line. */
  function LiteralEnd(t: Text, i: nat): (j: Option<nat>)
    requires i <= |t|
    ensures j.Some? ==> i < j.value <= |t|
    decreases |t| - i
  {
    if i == |t| then None
    else if t[i] == QUOTE then Some(i + 1)
    else if EscapeLength(t, i) > 0 then LiteralEnd(t, i + EscapeLength(t, i))
    else if t[i] == BACKSLASH || t[i] == NEWLINE || t[i] == RETURN then None
    else LiteralEnd(t, i + 1)
  }

  /** The end of the piece at position i: a string literal, a mark, white space, one of the three
      words or a number. There is none if that is i itself. */
  function PieceEnd(t: Text, i: nat): (j: nat)
    requires i < |t|
    ensures i <= j <= |t|
  {
    if t[i] == QUOTE then (if LiteralEnd(t, i + 1).Some? then LiteralEnd(t, i + 1).value else i)
    else if IsPunct(t[i]) || IsSpace(t[i]) then i + 1
    else SimpleEnd(t, i)
  }

  /** The outline of a text that is a row of pieces: marks and white space stay, and everything
      else becomes a closing bracket. */
  function Outline(t: Text, i: nat): Option<Text>
    requires i <= |t|
    decreases |t| - i
  {
    if i == |t| then Some([])
    else if PieceEnd(t, i) == i then None
    else
      var rest := Outline(t, PieceEnd(t, i));
      if rest.None? then None
      else Some([if IsPunct(t[i]) || IsSpace(t[i]) then t[i] else RBRACKET] + rest.value)
  }

  // ----- Words and numbers are found in the text where they are found without escape sequences.

  lemma {:induction false} DigitsSame(t: Text, i: nat, h: Text, k: nat)
    requires Hides(t, i, h, k) && k <= |h|
    ensures Hides(t, DigitsEnd(t, i), h, DigitsEnd(h, k)) && DigitsEnd(t, i) - i == DigitsEnd(h, k) - k
    decreases |t| - i
  {
    HideStep(t, i, h, k);
    if i < |t| && IsDigit(t[i]) {
      DigitsSame(t, i + 1, h, k + 1);
    }
  }

  lemma FractionSame(t: Text, i: nat, h: Text, k: nat)
    requires Hides(t, i, h, k) && k <= |h|
    ensures Hides(t, FractionEnd(t, i), h, FractionEnd(h, k)) && FractionEnd(t, i) - i == FractionEnd(h, k) - k
  {
    HideStep(t, i, h, k);
    if i < |t| && t[i] == DOT {
      DigitsSame(t, i + 1, h, k + 1);
    }
  }

  lemma ExponentSame(t: Text, i: nat, h: Text, k: nat)
    requires Hides(t, i, h, k) && k <= |h|
    ensures Hides(t, ExponentEnd(t, i), h, ExponentEnd(h, k)) && ExponentEnd(t, i) - i == ExponentEnd(h, k) - k
  {
    HideStep(t, i, h, k);
    if i < |t| && (t[i] == LOWER_E || t[i] == UPPER_E) {
      HideStep(t, i + 1, h, k + 1);
      if i + 1 < |t| && (t[i + 1] == PLUS || t[i + 1] == MINUS) {
        DigitsSame(t, i + 2, h, k + 2);
      } else {
        DigitsSame(t, i + 1, h, k + 1);
      }
    }
  }

  /** Letters, which neither start an escape sequence nor stand for one. */
  predicate Letters(w: Text) {
    forall x | 0 <= x < |w| :: w[x] != BACKSLASH && w[x] != AT
  }

  lemma {:induction false} LettersSame(t: Text, i: nat, h: Text, k: nat, w: Text)
    requires Hides(t, i, h, k) && k <= |h| && Letters(w)
    ensures Spans(t, i, i + |w|, w) <==> Spans(h, k, k + |w|, w)
    ensures Spans(t, i, i + |w|, w) ==> Hides(t, i + |w|, h, k + |w|)
    decreases |w|
  {
    if w != [] {
      HideStep(t, i, h, k);
      FirstLetter(t, i, w);
      FirstLetter(h, k, w);
      if i < |t| && t[i] == w[0] {
        LettersSame(t, i + 1, h, k + 1, w[1..]);
      }
    }
  }

  lemma FirstLetter(t: Text, i: nat, w: Text)
    requires w != []
    ensures Spans(t, i, i + |w|, w) <==> i < |t| && t[i] == w[0] && Spans(t, i + 1, i + |w|, w[1..])
  {
    if i + |w| <= |t| {
      var u := t[i..i + |w|];
      assert u[0] == t[i] && u[1..] == t[i + 1..i + |w|];
      assert w == [w[0]] + w[1..] && u == [u[0]] + u[1..];
    }
  }

  lemma WordSame(t: Text, i: nat, h: Text, k: nat)
    requires Hides(t, i, h, k) && k <= |h|
    ensures var p, q := WordAt(t, i), WordAt(h, k);
            && (p.Found? <==> q.Found?)
            && (p.Found? ==> p.next - i == q.next - k && Hides(t, p.next, h, q.next))
  {
    LettersSame(t, i, h, k, WordText(NullWord));
    LettersSame(t, i, h, k, WordText(TrueWord));
    LettersSame(t, i, h, k, WordText(FalseWord));
  }

  lemma NumberSame(t: Text, i: nat, h: Text, k: nat)
    requires Hides(t, i, h, k) && i < |t| && EscapeLength(t, i) == 0 && t[i] != QUOTE
    requires k < |h| && WordAt(t, i).Failed? && WordAt(h, k).Failed?
    ensures Hides(t, SimpleEnd(t, i), h, SimpleEnd(h, k)) && SimpleEnd(t, i) - i == SimpleEnd(h, k) - k
  {
    HideStep(t, i, h, k);
    var a, b := if t[i] == MINUS then i + 1 else i, if h[k] == MINUS then k + 1 else k;
    DigitsSame(t, a, h, b);
    FractionSame(t, DigitsEnd(t, a), h, DigitsEnd(h, b));
    ExponentSame(t, FractionEnd(t, DigitsEnd(t, a)), h, FractionEnd(h, DigitsEnd(h, b)));
  }

  lemma SimpleSame(t: Text, i: nat, h: Text, k: nat)
    requires Hides(t, i, h, k) && i < |t| && EscapeLength(t, i) == 0 && t[i] != QUOTE
    ensures k < |h| && h[k] == t[i]
    ensures Hides(t, SimpleEnd(t, i), h, SimpleEnd(h, k)) && SimpleEnd(t, i) - i == SimpleEnd(h, k) - k
  {
    HideStep(t, i, h, k);
    WordSame(t, i, h, k);
    if WordAt(t, i).Failed? {
      NumberSame(t, i, h, k);
    }
  }

  // ----- String literals likewise.

  /** The string literals whose inside starts at the two positions end at the same place, or
      nowhere. */
  predicate LiteralsMeet(t: Text, i: nat, h: Text, k: nat)
    requires i <= |t| && k <= |h|
  {
    var m := PlainEnd(h, k);
    && (LiteralEnd(t, i).Some? <==> m < |h| && h[m] == QUOTE)
    && (LiteralEnd(t, i).Some? ==> Hides(t, LiteralEnd(t, i).value, h, m + 1))
  }

  lemma {:induction false} LiteralSame(t: Text, i: nat, h: Text, k: nat)
    requires Hides(t, i, h, k) && k <= |h|
    ensures LiteralsMeet(t, i, h, k)
    decreases |t| - i
  {
    HideStep(t, i, h, k);
    if i < |t| {
      var n := EscapeLength(t, i);
      if n > 0 {
        LiteralSame(t, i + n, h, k + 1);
        EscapeInLiteral(t, i, h, k, n);
      } else if t[i] != QUOTE && t[i] != BACKSLASH && t[i] != NEWLINE && t[i] != RETURN {
        LiteralSame(t, i + 1, h, k + 1);
      }
    }
  }

  lemma EscapeInLiteral(t: Text, i: nat, h: Text, k: nat, n: nat)
    requires i < |t| && k < |h| && n == EscapeLength(t, i) > 0 && h[k] == AT && LiteralsMeet(t, i + n, h, k + 1)
    ensures LiteralsMeet(t, i, h, k)
  {}

  // ----- The first two replacements leave the outline.

  lemma MarkIsNotSimple(t: Text, i: nat)
    requires i < |t| && (IsPunct(t[i]) || IsSpace(t[i]) || t[i] == AT || t[i] == BACKSLASH)
    ensures SimpleEnd(t, i) == i
  {
    forall w | StartsWord(t, i, w) ensures t[i] == WordText(w)[0] {
      SpanAt(t, i, i + |WordText(w)|, WordText(w), 0);
    }
  }

  /** What a position of the text, and the position it went to, have in common: there is a piece
      exactly if there is something that shrinks or may stay, and after it they meet again. */
  predicate PiecesAgree(t: Text, i: nat, h: Text, k: nat)
    requires i < |t| && k < |h|
  {
    var j, m := PieceEnd(t, i), SimpleEnd(h, k);
    && (j > i <==> m > k || IsPunct(h[k]) || IsSpace(h[k]))
    && (j > i ==>
          && Hides(t, j, h, if m > k then m else k + 1)
          && (m > k <==> !IsPunct(t[i]) && !IsSpace(t[i])) && (m == k ==> h[k] == t[i]))
  }

  lemma EscapesAgree(t: Text, i: nat, h: Text, k: nat)
    requires Hides(t, i, h, k) && i < |t| && EscapeLength(t, i) > 0
    ensures k < |h| && PiecesAgree(t, i, h, k)
  {
    HideStep(t, i, h, k);
    MarkIsNotSimple(t, i);
    MarkIsNotSimple(h, k);
  }

  lemma LiteralsAgree(t: Text, i: nat, h: Text, k: nat)
    requires Hides(t, i, h, k) && i < |t| && t[i] == QUOTE
    ensures k < |h| && PiecesAgree(t, i, h, k)
  {
    HideStep(t, i, h, k);
    LiteralSame(t, i + 1, h, k + 1);
  }

  lemma MarksAgree(t: Text, i: nat, h: Text, k: nat)
    requires Hides(t, i, h, k) && i < |t| && (IsPunct(t[i]) || IsSpace(t[i]))
    ensures k < |h| && PiecesAgree(t, i, h, k)
  {
    HideStep(t, i, h, k);
    MarkIsNotSimple(h, k);
  }

  lemma PieceSame(t: Text, i: nat, h: Text, k: nat)
    requires Hides(t, i, h, k) && i < |t|
    ensures k < |h| && PiecesAgree(t, i, h, k)
  {
    if EscapeLength(t, i) > 0 {
      EscapesAgree(t, i, h, k);
    } else if t[i] == QUOTE {
      LiteralsAgree(t, i, h, k);
    } else if IsPunct(t[i]) || IsSpace(t[i]) {
      MarksAgree(t, i, h, k);
    } else {
      SimpleSame(t, i, h, k);
    }
  }

  lemma OnlyShapeCons(c: Unit, s: Text)
    ensures OnlyShape([c] + s) <==> (IsPunct(c) || IsSpace(c)) && OnlyShape(s)
  {
    if OnlyShape([c] + s) {
      assert ([c] + s)[0] == c;
      assert forall x | 0 <= x < |s| :: s[x] == ([c] + s)[x + 1];
    }
  }

  /** What a piece leaves in front of what the rest leaves. */
  lemma OutlineCons(t: Text, i: nat, h: Text, k: nat, n: nat)
    requires i < |t| && k < |h| && PiecesAgree(t, i, h, k) && PieceEnd(t, i) > i
    requires n == if SimpleEnd(h, k) > k then SimpleEnd(h, k) else k + 1
    requires Outline(t, PieceEnd(t, i)).Some? <==> OnlyShape(HideSimple(h, n))
    requires Outline(t, PieceEnd(t, i)).Some? ==> Outline(t, PieceEnd(t, i)).value == HideSimple(h, n)
    ensures Outline(t, i).Some? <==> OnlyShape(HideSimple(h, k))
    ensures Outline(t, i).Some? ==> Outline(t, i).value == HideSimple(h, k)
  {
    OnlyShapeCons(if SimpleEnd(h, k) > k then RBRACKET else h[k], HideSimple(h, n));
  }

  lemma {:induction false} OutlineIsLeft(t: Text, i: nat, h: Text, k: nat)
    requires Hides(t, i, h, k) && k <= |h|
    ensures Outline(t, i).Some? <==> OnlyShape(HideSimple(h, k))
    ensures Outline(t, i).Some? ==> Outline(t, i).value == HideSimple(h, k)
    decreases |t| - i
  {
    HideStep(t, i, h, k);
    if i < |t| {
      PieceSame(t, i, h, k);
      var n := if SimpleEnd(h, k) > k then SimpleEnd(h, k) else k + 1;
      if PieceEnd(t, i) > i {
        OutlineIsLeft(t, PieceEnd(t, i), h, n);
        OutlineCons(t, i, h, k, n);
      } else {
        OnlyShapeCons(h[k], HideSimple(h, n));
      }
    }
  }

  // ----- The third replacement leaves no opening bracket exactly of a chained text.

  lemma {:induction false} RunStarts(t: Text, i: nat)
    requires i <= |t| && Chained(t, OpensEnd(t, i), false)
    ensures Chained(t, i, true)
    decreases |t| - i
  {
    var k := SpaceEnd(t, i);
    SkipSpace(t, i, true);
    if k < |t| && t[k] == LBRACKET {
      RunStarts(t, k + 1);
    } else {
      SkipSpace(t, i, false);
    }
  }

  lemma HarmlessCons(c: Unit, s: Text)
    requires Harmless([c] + s)
    ensures c != LBRACKET && Harmless(s)
  {
    assert ([c] + s)[0] == c;
    assert forall x | 0 <= x < |s| :: s[x] == ([c] + s)[x + 1];
  }

  lemma {:induction false} DeletedIsChained(t: Text, i: nat)
    requires i <= |t| && Harmless(DeleteOpens(t, i)) && (i == 0 ==> OpensEnd(t, 0) == 0)
    ensures Chained(t, i, false)
    decreases |t| - i
  {
    if i < |t| {
      var e := DeletedEnd(t, i);
      if e > i {
        DeletedIsChained(t, e);
        RunStarts(t, i + 1);
      } else {
        HarmlessCons(t[i], DeleteOpens(t, i + 1));
        DeletedIsChained(t, i + 1);
        if t[i] == COLON || t[i] == COMMA {
          RunStarts(t, i + 1);
        }
      }
    }
  }

  lemma HarmlessExactly(s: Text)
    ensures Harmless(DeleteOpens(s, 0)) <==> OnlyShape(s) && Chained(s, 0, true)
  {
    if Harmless(DeleteOpens(s, 0)) {
      forall x | 0 <= x < |s| ensures IsPunct(s[x]) || IsSpace(s[x]) {
        ShapeBefore(s, 0, x);
      }
      DeletedIsChained(s, OpensEnd(s, 0));
      RunStarts(s, 0);
    } else if OnlyShape(s) && Chained(s, 0, true) {
      ChainedIsEmptied(s);
      ShapeLeft(s, DeleteOpens(s, 0));
    }
  }

  lemma ShapeLeft(s: Text, left: Text)
    requires OnlyShape(s) && forall c | c in left :: c != LBRACKET && c in s
    ensures Harmless(left)
  {
    forall x | 0 <= x < |left|
      ensures left[x] != LBRACKET && (IsPunct(left[x]) || IsSpace(left[x]))
    {
      assert left[x] in left && left[x] in s;
    }
  }

  /** A text passes exactly if it is a row of string literals, words, numbers, marks and white
      space, and every opening bracket comes, white space apart, at the start or right after a
      colon, a comma or another opening bracket that does. */
  lemma PassesExactly(t: Text)
    ensures PassesFilter(t) <==> Outline(t, 0).Some? && Chained(Outline(t, 0).value, 0, true)
  {
    var h := HideEscapes(t, 0);
    assert h[0..|h|] == h;
    OutlineIsLeft(t, 0, h, 0);
    HarmlessExactly(HideSimple(h, 0));
  }
}
